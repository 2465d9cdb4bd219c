# A verified model of the HTTP and timer core of nginx_quic_stack

The repository puts an HTTP front end on a QUIC stack. This project models, in Dafny, the parts
of it that carry their own logic, and proves what they are for:

- the push-style HTTP/1.x message parser (`src/http_parser/http_parser.c`, strict build): a state
  machine over bytes that keeps its state between calls, scans names, values and bodies in
  batches, and reports through callbacks;
- the URL splitter of the same file, two nested automata that fill `struct http_parser_url`;
- the alarm queue of the QUIC connections (`src/tQuicAlarmFactory.cc`), whose callbacks change the
  queue while a round of due alarms is running;
- the request body queue (`src/tQuicServerStream.cc`);
- request headers, response headers, raw header text and quoted strings
  (`src/http_parser/http_request_headers.cc`, `http_response_headers.cc`, `http_util.cc`).

`dafny verify dfyconfig.toml` checks everything.

## How the parts fit

**Message parser.** `HttpMachine` is the machine as functions: `Switch` is one pass through the
`switch` of the source, `Chain` the passes that one byte makes through `reexecute`, `Step` a byte
with its header budget, `Run` a buffer byte by byte. `HttpClient` is an application: `Deliver`
takes one callback, and its phase is `Broken` as soon as a callback is out of place in the message
grammar, a body or chunk delivers more or fewer bytes than announced, or a message begins after
one that did not keep the connection alive. `HttpShape`, `HttpInvariant` and `HttpRuns` hold the
invariant between parser record and application and prove that every pass keeps it. `HttpFeed`
takes it to whole connections, calls that signal the end of input among them. `HttpExecute` is `http_parser_execute` in its own form: a class whose fields are the C struct, with
the marks, the loop over the buffer and the inner scanning loops, each proved equal to the bytewise
run. `HttpSplit`, `HttpTheorems`, `HttpTokens` and `HttpConnection` draw the conclusions.
`HttpTakes` puts runs together; with it `HttpStartLines`, `HttpStatusLines`, `HttpHeaderRuns`,
`HttpMessages`, `HttpFraming`, `HttpChunks`, `HttpContents` and `HttpRoundTrip` go from the text of a
message to what is told of it. `HttpPersistence` says which connections are kept, `HttpEither` what
a parser for both kinds does, `HttpErrors` what an error tells.
`HttpLists` reads the lists of Connection and Transfer-Encoding lines as texts; `HttpListRuns` and
`HttpListLines` prove that the parser recognises exactly what that reading says. `HttpNoContent` is
one response, run through.

**URL.** `UrlLayout` says what a URL is as text, without automata. `UrlScan` and `UrlHost` prove
that the two automata accept exactly those texts, each with one layout. `UrlSplit` is the C struct
and its three functions.

**Alarms.** `AlarmEntries` has the ordered map with its nodes (a node stands for a `multimap`
iterator), `AlarmQueue` the queue and its events, `AlarmRounds` what a round fires,
`AlarmDeadlines` what is armed after it.

**Headers.** `HttpText`, `Quoting`, `RawHeaders`, `StatusLine`, `ResponseLines` and
`RequestHeaders` model the code; `RawHeadersNormal`, `RawHeadersFolding`, `StatusTexts`,
`RequestHeadersText`, `ResponseTexts`, `ResponseAppend`, `ResponseUpdate`, `ResponseValues` and
`ResponseCoalesce` hold the theorems.

## Where the code is not what one would expect

- The `unhex` table has 128 written entries and 256 slots, so in a chunk size every byte from 128
  up counts as the digit 0 (`HttpTokens.HighByteIsDigit`, `HttpTokens.SizeIsNumeralIff`).
- Of a list in a Connection or Transfer-Encoding line the parser misses elements. A comma goes
  unnoticed where nothing has been read yet, where it ends the match of a known word, and right
  after "chunked"; `LOWER` sets bit 5 of any byte, so a tab after a comma, or any other byte that
  is no token, ends recognition; so does a folded line anywhere but at the start of an element.
  `HttpListRuns.ListFlags` says for every value which flags go up;
  `HttpListLines.InputsMissed` has "chunked,chunked", "c,chunked", "gzip," with a tab before
  "chunked", and "c,close".
- The test for HTTP/1.1 asks for both digits to be above zero, so a message of version 2.0, or of
  any other with a zero in it, does not keep the connection on its own
  (`HttpPersistence.RequestEnds`, `HttpPersistence.ResponseEnds`).
- Joining the values of several lines of one name can change them: a quoted string that one line
  leaves open takes in what follows (`ResponseCoalesce.JoinIff`).
- Any field name that begins with "transfer-encoding" raises the transfer-encoding flag
  (`HttpTheorems.NamesRecognised`).
- After the end of input that completes a body read until then, every further call breaks the
  message grammar; nothing else does (`HttpFeed.GrammarIff`, `HttpNoContent.GrammarBreaks`).
- A response with status 1xx, 204 or 304 and a Transfer-Encoding other than chunked is read until
  the end of input, and that end can report a connection to be kept (`HttpTheorems.EofCompletes`,
  `HttpNoContent.NoContentKeptAlive`).
- The batch loop over header values steps over a byte without looking at it when it reaches its
  scan limit. Every call in which that happens then fails for its header size, so no accepted
  input is affected (`HttpExecute.HttpParser.ScanValue`).
- A callback that sets its own alarm for the current time makes the round of due alarms go on for
  ever (`AlarmQueue.AlarmEventQueue.SetsItselfAgain`).
- Without a located status line, assembling raw headers is not a normal form
  (`RawHeadersNormal.AssembleAgainIff`, `RawHeadersNormal.AssembledTwice`).
- Updating a stored HTTP/0.9 response turns it into HTTP/1.0 as soon as it has a header
  (`StatusLine.NormalAgainIff`, `StatusLine.ZeroNine`).

## Model

| member | source | states |
|---|---|---|
| HttpExecute.HttpParser.Execute | src/http_parser/http_parser.c:641-2148 | a call fails exactly when the byte-by-byte run fails, and unless that run spends the header budget at the same byte, with the same error and with callbacks that tell the same but for a last piece; otherwise it leaves the same record, consumes the same bytes and tells the same events once adjacent data events are merged; a parser in error does nothing; an empty call is the end of input; after every call, failing ones included, what the application has been told is within the message grammar if and only if the call did not come after the end of input that completed a body |
| HttpExecute.HttpParser.Consume | src/http_parser/http_parser.c:684-2140 | the loop over a non-empty buffer, with its marks and the callbacks for the mark left at the end, refines the bytewise run; when it fails, the callbacks it has made are within the message grammar |
| HttpExecute.HttpParser.Turn | src/http_parser/http_parser.c:710-2110 | one turn of the loop moves on by at least one byte and stays on the bytewise run, or fails where the run fails, with the same error and told events unless the header budget is spent |
| HttpExecute.HttpParser.ScanName | src/http_parser/http_parser.c:1254-1370 | the loop over the bytes of a field name ends at the first byte that is not a token, in the record of the bytewise run |
| HttpExecute.HttpParser.ScanValue | src/http_parser/http_parser.c:1480-1704 | the loop over the bytes of a value, with its local header state and its stretches of at most the header limit, stays on the bytewise run; where it skips a byte unseen the whole call is bound to fail |
| HttpExecute.HttpParser.Name | src/http_parser/http_parser.c:1254-1389 | the field-name state, loop, budget and callback together, refines the bytewise run |
| HttpExecute.HttpParser.Text | src/http_parser/http_parser.c:1480-1704 | the field-value state, loop, budget and callback together, refines the bytewise run |
| HttpExecute.HttpParser.ValueReturn | src/http_parser/http_parser.c:1487-1492 | at the carriage return after a value the text is delivered before it is counted; the bytewise run is refined, and where the budget fails then the delivered text is within the message grammar |
| HttpExecute.HttpParser.Byte | src/http_parser/http_parser.c:716-2110 | a byte in any other state makes the callbacks of all its passes, also of a chain of passes that fails at last, and lands where the bytewise run lands |
| HttpExecute.HttpParser.TakeBody | src/http_parser/http_parser.c:1937-1971 | taking min(content_length, rest of the buffer) body bytes at once equals taking them one by one, for identity bodies and for chunks |
| HttpExecute.HttpParser.FinishBody | src/http_parser/http_parser.c:2088-2098 | the last byte of an identity body delivers what is marked and then completes the message |
| HttpExecute.HttpParser.TakeAll | src/http_parser/http_parser.c:1974-1978 | a body read until the end of input takes the rest of the buffer, as the bytewise run does |
| HttpExecute.HttpParser.CountHeaderSize | src/http_parser/http_parser.c:154-161 | the budget grows by the amount counted and fails exactly when it exceeds the limit |
| HttpExecute.Leftovers | src/http_parser/http_parser.c:2118-2140 | at the end of the buffer at most one mark is set, and its callback completes the trace |
| HttpSplit.SplitIndependence | src/http_parser/http_parser.c:641-2148 | two parsers that start alike, one fed a stream whole and one in any non-empty pieces, end with equal fields and equal merged traces, or both fail |
| HttpSplit.ExecutePieces | src/http_parser/http_parser.c:641-2148 | a stream fed in pieces follows the bytewise run over the whole stream |
| HttpBatch.BodyRun | src/http_parser/http_parser.c:1937-1971 | m bytes of a body that does not end with them leave everything but content_length as it was and tell m body bytes |
| HttpBatch.BodyRunEnds | src/http_parser/http_parser.c:1937-1971 | the last bytes of a body finish the message, the last bytes of a chunk lead to its end |
| HttpMarks.ChainTold | src/http_parser/http_parser.c:80-142 | what a byte adds to an open mark and which callbacks it makes fit together, so that a callback always covers exactly the marked bytes; a byte that fails closes runs and notifies, and takes nothing |
| HttpClient.DeliverTwice | src/http_parser/http_parser.h:84-88 | an application does not notice where a run of data is cut |
| HttpClient.DeliverJoined | src/http_parser/http_parser.h:84-88 | merging adjacent data events does not change what an application has been told |
| HttpFeed.FeedKeeps | src/http_parser/http_parser.c:641-2148 | over every connection, any sequence of calls with ends of input among them, the callbacks follow the message grammar, and bodies and chunks deliver exactly what was announced, exactly as long as no call comes after the end of a body read until then; the record stays in the invariant while no error is reported |
| HttpFeed.GrammarIff | src/http_parser/http_parser.c:641-2148 | the callbacks of a connection follow the grammar if and only if only its last call, if any, signals the end of input to a body read until then |
| HttpFeed.EndCompletes | src/http_parser/http_parser.c:663-670 | the end of input completes such a body and leaves the record as it was |
| HttpFeed.CallAfterEnd | src/http_parser/http_parser.c:663-682 | any call after that leaves the record alone and breaks the grammar |
| HttpFeed.CallKeeps | src/http_parser/http_parser.c:641-2148 | every other call keeps grammar and invariant, and one that fails keeps the grammar |
| HttpRuns.StepKeeps | src/http_parser/http_parser.c:707-2110 | every byte keeps the invariant, and no assertion of the source fails in any pass that the byte makes |
| HttpRuns.ChainAsserts | src/http_parser/http_parser.c:1942-1943 | every assertion of the source holds in every pass of a reexecute chain |
| HttpRuns.ChainKeeps | src/http_parser/http_parser.c:716-2110 | a chain of passes ends, in a state that a byte can leave behind, with the header budget kept or restarted |
| HttpRuns.SwitchKeeps | src/http_parser/http_parser.c:717-2110 | one pass through any state keeps the invariant between record and application |
| HttpRuns.InitGood | src/http_parser/http_parser.c:2217-2226 | an initialised parser of any type is in the invariant |
| HttpMachine.AgainLowersRank | src/http_parser/http_parser.c:66-67 | every reexecute goes to a state of smaller rank, so the passes over one byte end |
| HttpTheorems.FramingSound | src/http_parser/http_parser.c:1793-1935 | section 3.3.3 of RFC 7230: chunked reading needs a Transfer-Encoding line whose last coding is chunked; no head with both framings, or with two Content-Length lines, is accepted; only responses are read until the end of input; an identity body has the declared length, and what is expected is that minus what was delivered |
| HttpTheorems.NamesRecognised | src/http_parser/http_parser.c:1204-1389 | at the end of a field name the header state is that of a recognised name exactly when the name is that name ignoring case, however it was cut; the transfer-encoding flag is up exactly when some name begins with that word |
| HttpConnection.ConnectionSound | src/http_parser/http_parser.c:1455-1747 | the keep-alive, close and upgrade flags are up only when some Connection or Proxy-Connection line has that element ignoring case, and the upgrade flag only when there is an Upgrade line |
| HttpConnection.PersistenceSound | src/http_parser/http_parser.c:2181-2197 | below HTTP/1.1 a connection is kept only for a keep-alive element; from HTTP/1.1 on a message with its own end closes it only for a close element |
| HttpListRuns.ListExact | src/http_parser/http_parser.c:1391-1750 | after any accepted value of a Connection or Transfer-Encoding line, folded lines included, the header state is what the text of its last element says, given how the elements before it were read, and the flags are those of the words before it |
| HttpListRuns.ListFlags | src/http_parser/http_parser.c:1391-1750 | at the end of such a line a flag of Connection has gone up if and only if its word is an element that is recognised, and the chunked flag if and only if the last element is recognised as chunked; no other flag changes, but for skip-body where the header section ends |
| HttpLists.LastReadSnoc | src/http_parser/http_parser.c:1404-1704 | the reading of a value, defined on the text of its elements, changes with each byte and each fold as an automaton does |
| HttpLists.RawOfItems | src/http_parser/http_parser.c:1715-1723 | every text whose line breaks are followed by a blank is the text of some value |
| HttpListLines.LineFlags | src/http_parser/http_parser.c:1480-1750 | a value on one line within the header budget is accepted and leaves exactly the flags that its text says |
| HttpListLines.AfterComma | src/http_parser/http_parser.c:1577-1689 | how an element is read depends only on its own text and on how the element before it was read |
| HttpListLines.WordMissed | src/http_parser/http_parser.c:1577-1689 | behind an element that hides the comma or the tab after it, or behind chunked, a word that ends the list raises no flag |
| HttpListLines.WordRaisesFlag | src/http_parser/http_parser.c:1612-1747 | a line within the header budget whose value is one of the words of its header, in any case, is accepted and raises the flag of that word and no other |
| HttpListLines.InputsMissed | src/http_parser/http_parser.c:1577-1689 | the lists "chunked,chunked", "c,chunked", "gzip," with a tab before "chunked", and "c,close" are accepted, end in a word and raise no flag |
| HttpTheorems.LengthExact | src/http_parser/http_parser.c:1540-1574 | an accepted Content-Length is the value of its decimal digits and never the sentinel; without a Content-Length line the field holds the sentinel |
| HttpTheorems.FieldsInRange | src/http_parser/http_parser.h:302 | index never reaches 32, the budget never passes the limit, status codes stay within three digits, and the budget is zero where a chunk size begins |
| HttpTheorems.EofCompletes | src/http_parser/http_parser.c:663-682 | the end of input completes a body that was read until then, once; the application is told to keep the connection if and only if the status code never carries a body and version and flags say so |
| HttpNoContent.NoContentKeptAlive | src/http_parser/http_parser.c:663-682 | a 204 with a Transfer-Encoding of x, byte by byte: the end of input reports a connection to keep |
| HttpNoContent.GrammarBreaks | src/http_parser/http_parser.c:663-682 | after it any call, with data or without, breaks the grammar |
| HttpFields.NameStep | src/http_parser/http_parser.c:1264-1364 | one byte of the name automaton is one byte more of a comparison with the six known names |
| HttpFields.CurrentSnoc | src/http_parser/http_parser.c:1577-1610 | the text since the last comma grows byte by byte as the value automaton sees it |
| HttpTokens.ChunkSizeExact | src/http_parser/http_parser.c:1989-2040 | a chunk size of any number of digits is accepted exactly when it fits, and is then the value of its digits and never the sentinel |
| HttpTokens.SizeIsHexadecimal | src/http_parser/http_parser.c:224-233 | on hexadecimal digits that value is the hexadecimal value |
| HttpTokens.SizeIsNumeralIff | src/http_parser/http_parser.c:224-233 | an accepted size is a hexadecimal numeral if and only if it has no byte from 128 up |
| HttpTokens.HighByteIsDigit | src/http_parser/http_parser.c:1989-2040 | the input for which the size is not a numeral's value |
| HttpTokens.MethodExact | src/http_parser/http_parser.c:925-1020 | a request method is accepted exactly when it is the name of one of the methods, and that method is recorded |
| HttpStartLines.VersionTaken | src/http_parser/http_parser.c:1095-1202 | behind a target, HTTP/ with two digits around a dot and a line end, bare or not, is taken and records exactly these two digits |
| HttpStartLines.VersionOnly | src/http_parser/http_parser.c:1095-1202 | whatever is taken there is spaces and a beginning of that text, or of ICE/ for the method SOURCE, and the version recorded is the digits read so far |
| HttpStartLines.TargetTaken | src/http_parser/http_parser.c:1022-1093 | a target is taken as long as the URL automaton lives, told byte by byte, and nothing but state and count changes |
| HttpStartLines.TargetRefused | src/http_parser/http_parser.c:1022-1093 | a byte at which that automaton dies is refused |
| HttpStartLines.ShortLineTaken | src/http_parser/http_parser.c:1076-1088 | a request line that ends behind its target has version 0.9 |
| HttpStartLines.RequestLineTaken | src/http_parser/http_parser.c:925-1202 | any method, target and version, written as a request line, are read back: the record holds the method and the version, and the target is told |
| HttpStatusLines.StatusLineTaken | src/http_parser/http_parser.c:767-923 | any version, spaces, status code up to 999 and reason, written as a status line, are read back: the code is the decimal value of its digits, the reason is told |
| HttpStatusLines.StatusOnly | src/http_parser/http_parser.c:786-923 | whatever is taken behind the first letter of a response is a beginning of such a line, with the version and code of its digits |
| HttpErrors.ErrorNamed | src/http_parser/http_parser.c:717-2110 | a byte that is refused has spent the header budget, and then reports that, or reports an error of the part of the message that it was last read as: method, target, protocol, version, status, line end, name, value, end of the head, chunk size, body |
| HttpEither.BothIsEither | src/http_parser/http_parser.c:729-767 | a parser for both kinds, on any input and at any byte of it, runs as the response parser behind "HT", fails as both do behind an H and any byte but E, and otherwise runs as the request parser, line breaks before the message included |
| HttpPersistence.MessageEnds | src/http_parser/http_parser.c:2153-2197 | for any message between its start line and its end: without Connection lines that decide, the application is told to keep the connection exactly when both digits of the version are above zero; with them, only against that by a close or a keep-alive element |
| HttpPersistence.RequestEnds | src/http_parser/http_parser.c:925-2197 | the same from the text of the request line |
| HttpPersistence.ResponseEnds | src/http_parser/http_parser.c:767-2197 | the same from the text of the status line |
| HttpPersistence.NothingAfterClose | src/http_parser/http_parser.c:719-727 | after a message that does not keep the connection line breaks are passed over, and the first other byte is refused with nothing told |
| HttpHeaderRuns.NameTaken | src/http_parser/http_parser.c:1204-1389 | any field name is told byte by byte, leaves the header state of its lower-case text, and raises the transfer-encoding flag exactly when it begins with that word |
| HttpHeaderRuns.LengthTaken | src/http_parser/http_parser.c:1434-1574 | the value of a Content-Length line is accepted exactly when it is digits, of which all but the last stay within the limit, and spaces, and the decimal value of the digits is then recorded |
| HttpMessages.LineTaken | src/http_parser/http_parser.c:1204-1791 | a header line is accepted, tells its name and value, and leaves the length it declares and exactly the flags that its text says: of a length, of the words of a list, of an Upgrade line with text, of a name that begins with transfer-encoding |
| HttpMessages.LinesTaken | src/http_parser/http_parser.c:1204-1791 | the same for any number of lines, one Content-Length at most among them |
| HttpFraming.HeadEnds | src/http_parser/http_parser.c:1793-1935 | the line feed that ends a head does what the framing table of section 3.3.3 of RFC 7230 says for its flags, its length, its kind, its method, its status and the answer of the application: refused, nothing, another protocol, chunks, a counted body, or a body until the end of input |
| HttpChunks.ChunkTaken | src/http_parser/http_parser.c:1989-2110 | a chunk, with any accepted digits and any extension, is told by its size, its data and its end, and leaves the record at the next chunk with the budget restarted |
| HttpContents.MessageTaken | src/http_parser/http_parser.c:1204-2110 | a head and the content it announces, whole or in chunks with a trailer, are accepted and told in order; the flags at the end are those that the lines of head and trailer say, and with the version they decide the connection |
| HttpContents.UntilCloseTaken | src/http_parser/http_parser.c:1974-1978 | behind a head that is framed by the end of input everything is told as body, and no end is told |
| HttpContents.TunnelStops | src/http_parser/http_parser.c:1822-1885 | behind a head that goes over to another protocol the message is over, and no byte that follows is consumed |
| HttpContents.HeadRefused | src/http_parser/http_parser.c:1800-1905 | a head with both framings, or a request with a coding that is not chunked, is refused at its last byte with its own error |
| HttpRoundTrip.RequestRoundTrip | src/http_parser/http_parser.c:641-2148 | a request written out from method, target, version, header lines and content is accepted to its last byte, and once pieces are joined the callbacks tell exactly these parts: target, each name and value in order, what the head declares, body or chunks with their sizes, trailer, and whether the connection is kept |
| HttpRoundTrip.ResponseRoundTrip | src/http_parser/http_parser.c:641-2148 | the same for a response whose end is known from its head |
| HttpTokens.BudgetExact | src/http_parser/http_parser.c:154-161 | over every connection without error the budget equals the number of bytes consumed in header states since its last restart, whichever calls they came in, and is within the limit |
| UrlSplit.HttpParserUrl.ParseUrl | src/http_parser/http_parser.c:2415-2537 | a buffer is accepted exactly when it is a URL in the sense of UrlLayout.IsUrl; each field is then its part of the one layout, unset when that is empty, and the port is the decimal value of its digits, at most 65535 |
| UrlSplit.HttpParserUrl.ParseHost | src/http_parser/http_parser.c:2328-2408 | an authority is accepted exactly when it is userinfo, host and port by the grammar; the three fields are its parts and the other fields stay |
| UrlSplit.HttpParserUrl.ScanFields | src/http_parser/http_parser.c:2428-2489 | the first loop lays the fields out as the layout says, the authority in one piece, or there is no URL |
| UrlSplit.HttpParserUrl.ParsePort | src/http_parser/http_parser.c:2510-2533 | the port is the decimal value of its digits, and is refused exactly when that exceeds 65535 |
| UrlSplit.FieldsInOrder | src/http_parser/http_parser.c:2415-2537 | the set fields lie in the buffer in the order schema, userinfo, host, port, path, query, fragment, none over another |
| UrlSplit.FieldsCoverAll | src/http_parser/http_parser.c:2415-2537 | every byte outside the fields is one of the delimiters |
| UrlSplit.ConnectFields | src/http_parser/http_parser.c:2505-2508 | the CONNECT test on the set of fields is the test that the layout has a host and a port and nothing else |
| UrlScan.ScanSound | src/http_parser/http_parser.c:493-639 | a scan that does not die has found a layout of what it has read |
| UrlScan.ScanComplete | src/http_parser/http_parser.c:493-639 | a text with a layout takes the automaton through the states of that layout |
| UrlScan.OneLayout | src/http_parser/http_parser.c:493-639 | a text has one layout at most |
| UrlHost.ScanComplete | src/http_parser/http_parser.c:2246-2326 | an authority takes the host automaton through the states of its parts, and has an '@' exactly when it has a userinfo part |
| UrlHost.FinalIsAuthority | src/http_parser/http_parser.c:2246-2326 | a scan that ends in an accepting state has found userinfo, host and port |
| UrlHost.OneAuthority | src/http_parser/http_parser.c:2246-2326 | an authority has one layout at most |
| AlarmQueue.AlarmEventQueue.RegisterAlarm | src/tQuicAlarmFactory.cc:17-29 | an alarm not yet registered gets one entry at its deadline behind equal ones, its token and its flag; a registered one changes nothing; the agreement of map, set, flags and tokens is kept; the deadlines, as a map from alarms, gain just that one |
| AlarmQueue.AlarmEventQueue.UnregisterAlarm | src/tQuicAlarmFactory.cc:31-38 | exactly the token's entry goes, and the agreement is kept |
| AlarmQueue.AlarmEventQueue.Cancel | src/tQuicAlarmFactory.cc:149-156 | a registered alarm's own entry goes, an unregistered one changes nothing, also from inside a callback; no other deadline changes |
| AlarmQueue.AlarmEventQueue.ReregisterAlarm | src/tQuicAlarmFactory.cc:158-162 | the alarm's own entry moves to the new deadline under a new token |
| AlarmQueue.AlarmEventQueue.Update | src/tQuicAlarmFactory.cc:198-207 | moves or creates the alarm's one entry; its deadline is the new one and no other changes |
| AlarmQueue.AlarmEventQueue.Apply | src/tQuicAlarmFactory.cc:185-207 | any Set, Cancel or Update made from inside a callback keeps the agreement but for the entry in flight, and takes at most its own alarm off those still to fire, and leaves the deadline map that the operation says: the alarm it names at its new deadline or without one, every other as it was |
| AlarmQueue.AlarmEventQueue.RunCallback | src/tQuicAlarmFactory.cc:78-79 | the same for the whole sequence of operations of a callback, one after the other |
| AlarmQueue.AlarmEventQueue.Fire | src/tQuicAlarmFactory.cc:78-94 | one turn of the round: agreement restored, iterator valid, the alarms still to fire are the earlier ones less those struck; the deadlines are those that the callback and its return value give, the fired alarm otherwise without one |
| AlarmQueue.AlarmEventQueue.Rearm | src/tQuicAlarmFactory.cc:85-94 | a return value at or before now arms the alarm again but not for this round |
| AlarmQueue.AlarmEventQueue.CallTimeoutAlarms | src/tQuicAlarmFactory.cc:57-97 | the round ends; it fires the due alarms of its start less those that an earlier callback cancelled or moved; what is left at or before now was put there by a return value; the deadlines at the end are the history of all the callbacks and return values of the round, applied to those at its start |
| AlarmQueue.AlarmEventQueue.SetsItselfAgain | src/tQuicAlarmFactory.cc:57-97 | a callback that sets its own alarm for now leaves queue and iterator as they were, so the round does not end |
| AlarmDeadlines.DeadlineIff | src/tQuicAlarmFactory.cc:57-207 | after any operations an alarm has a deadline exactly when it had it at the start, or an Update, or a Set while it was not armed, gave it that one, and no later operation has cancelled or moved it |
| AlarmDeadlines.UnarmedIff | src/tQuicAlarmFactory.cc:57-207 | it has none exactly when it had none at the start or was cancelled, and nothing has armed it since |
| AlarmDeadlines.UnnamedKeeps | src/tQuicAlarmFactory.cc:57-207 | an alarm that no operation names keeps what it had |
| AlarmDeadlines.RoundLeavesOthers | src/tQuicAlarmFactory.cc:57-97 | a whole round leaves an alarm that was not due when it began, and that none of its callbacks names, at its deadline or without one |
| AlarmRounds.RoundOfQueue | src/tQuicAlarmFactory.cc:57-97 | the alarms of a round fire in order of deadline, each once, each due and not struck before; a due alarm that does not fire was struck |
| AlarmRounds.RoundExact | src/tQuicAlarmFactory.cc:57-97 | the same for any list of distinct due alarms |
| AlarmRounds.PendingInOrder | src/tQuicAlarmFactory.cc:64-77 | the due alarms of a map with one entry each are distinct and in order of deadline |
| AlarmEntries.Lands | src/tQuicAlarmFactory.cc:81-83 | erasing the fired entry after moving the iterator on leaves the iterator at the next entry and the due alarms as they were |
| AlarmEntries.Rearms | src/tQuicAlarmFactory.cc:85-94 | an entry that is not due in this round does not disturb the iterator or the due alarms |
| AlarmEntries.RoundOver | src/tQuicAlarmFactory.cc:64-67 | when the iterator is at the end or past now, nothing due is left but alarms to be skipped |
| BodyQueue.QueuedWriteIOBuffer.Append | src/tQuicServerStream.cc:85-103 | data is accepted whole or not at all, exactly by the limit; the queue is then the old bytes and the new ones; accepted bytes are always those delivered followed by those queued |
| BodyQueue.QueuedWriteIOBuffer.DidConsume | src/tQuicServerStream.cc:105-119 | the consumed bytes leave at the front, across chunk boundaries |
| BodyQueue.QueuedWriteIOBuffer.GetSizeToWrite | src/tQuicServerStream.cc:121-131 | the size is that of the rest of the first chunk, zero exactly when the queue is empty |
| BodyQueue.ReadRequestBody | src/tQuicServerStream.cc:314-342 | the first min(length, queued) bytes are copied and nothing beyond them is written; they leave the queue; the return code is that number, or closed when the queue is empty, or busy |
| Quoting.UnquoteImpl | src/http_parser/http_util.cc:464-494 | accepts a string in quote marks, in strict mode only when its inside is bytes and quoted pairs; the result is the text they stand for |
| Quoting.StrictUnquote | src/http_parser/http_util.cc:504-506 | accepts exactly the strings in quote marks in which every inner quote mark has an odd run of backslashes before it and the closing one an even run |
| Quoting.Unquote | src/http_parser/http_util.cc:497-502 | unescapes what is in quote marks and leaves anything else as it is |
| Quoting.Quote | src/http_parser/http_util.cc:508-521 | puts quote marks around the escaped text |
| Quoting.RoundTrip | src/http_parser/http_util.cc:497-521 | both ways of unquoting undo Quote on every string |
| Quoting.PairsIffQuotesEscaped | src/http_parser/http_util.cc:464-494 | being a sequence of bytes and pairs and being escaped by the parity of backslashes are the same |
| Quoting.EscapedUnescaped | src/http_parser/http_util.cc:497-521 | quoting what was unquoted gives the original exactly when it escapes only what needs it |
| HttpText.TrimLws | src/http_parser/http_util.cc:26-33 | the cursors stop at the first and after the last byte that is not a blank |
| HttpText.TokenCharsAgree | src/http_parser/http_util.cc:434-439 | the token characters of the header classes, by exclusion, are those of the message parser's table |
| HttpText.CutKept | src/http_parser/http_util.cc:747-770 | a header line cut off after its value is the same header |
| RawHeaders.LocateStartOfStatusLine | src/http_parser/http_util.cc:526-538 | finds the first "http", in any case, that begins within the first five positions |
| RawHeaders.AssembleRawHeaders | src/http_parser/http_util.cc:605-645 | the result is the status line and the joined lines, NULs erased, one NUL after each line and one more |
| RawHeaders.ConvertHeadersBackToHTTPResponse | src/http_parser/http_util.cc:646-654 | each non-empty line with CR LF after it, and one CR LF more |
| RawHeadersNormal.JoinAgain | src/http_parser/http_util.cc:575-642 | lines that have been joined have no continuations left |
| RawHeadersNormal.AssembledIsPlain | src/http_parser/http_util.cc:605-645 | for input without NUL the assembly has no CR or LF, and two NULs together only at its end |
| RawHeadersNormal.AssembleAgain | src/http_parser/http_util.cc:526-654 | for input without NUL whose status line is located, assembling, converting back and assembling again gives the first assembly |
| RawHeadersNormal.AssembleAgainIff | src/http_parser/http_util.cc:526-654 | when it is not located, that holds exactly when the input has no header lines, or has a status line and no "http" in its first header line that would come within the slop behind the status line and one CR LF |
| RawHeadersNormal.AssembledTwice | src/http_parser/http_util.cc:526-654 | for "a", four line feeds and "http:x" assembling again gives something else |
| RawHeadersFolding.AssembledUnfolded | src/http_parser/http_util.cc:575-645 | for input without NUL no line of the result that begins with a blank follows a line with a name |
| RawHeadersFolding.JoinSnoc | src/http_parser/http_util.cc:575-642 | one more line of blanks and a text goes to the end of the last line, as one space and the text, exactly when it begins with a blank and that line has a name; otherwise it is a line of its own |
| RawHeadersFolding.FoldUndone | src/http_parser/http_util.cc:605-645 | a line cut in two by a fold assembles as the line with one space there, whatever lines are around it |
| RawHeadersFolding.AssembledErases | src/http_parser/http_util.cc:605-645 | for any input, NULs included, the result is the status line and every line, each without its NULs and with one after it, and one more |
| RawHeadersFolding.Erased | src/http_parser/http_util.cc:640-642 | erasing takes every NUL and nothing else |
| RequestHeaders.HttpRequestHeaders.SetHeader | src/http_parser/http_request_headers.cc:98-105 | the value is replaced where the name stands, ignoring case, or a header is added at the end; names stay unique |
| RequestHeaders.HttpRequestHeaders.FindHeader | src/http_parser/http_request_headers.cc:188-196 | the first header with the name, ignoring case, or the end |
| RequestHeaders.HttpRequestHeaders.GetHeader | src/http_parser/http_request_headers.cc:85-92 | the value of that header |
| RequestHeaders.HttpRequestHeaders.SetHeaderIfMissing | src/http_parser/http_request_headers.cc:107-116 | sets the header only when there is none of the name |
| RequestHeaders.HttpRequestHeaders.RemoveHeader | src/http_parser/http_request_headers.cc:118-122 | the header goes, the others stay in order, and with unique names no header of the name is left |
| RequestHeaders.HttpRequestHeaders.AddHeaderFromString | src/http_parser/http_request_headers.cc:124-162 | for a line that is a name, a colon, blanks, a value and blanks, sets that header to that value; any other line changes nothing |
| RequestHeaders.LineHeaderIff | src/http_parser/http_request_headers.cc:124-162 | a line is read as a header with this name and value if and only if it is the name, a colon, any blanks, the value and any blanks, the value without line breaks and NUL |
| RequestHeaders.HttpRequestHeaders.AddHeadersFromString | src/http_parser/http_request_headers.cc:164-170 | adds the trimmed non-empty pieces between line breaks, one after the other |
| RequestHeaders.HttpRequestHeaders.ToString | src/http_parser/http_request_headers.cc:178-186 | one line for each header, each part up to its first NUL, and an empty line |
| RequestHeaders.GetSet | src/http_parser/http_request_headers.cc:85-105 | after a header is set it reads as the new value and every other name reads as before |
| RequestHeadersText.ReadBack | src/http_parser/http_request_headers.cc:124-186 | the text of a list reads back as the same list if and only if names are unique ignoring case, names are tokens and values have no NUL, line break, leading blank or trailing white space |
| RequestHeadersText.WriteAndRead | src/http_parser/http_request_headers.cc:124-186 | the same for objects: writing one and reading into an empty one |
| RequestHeadersText.ReadWellFormed | src/http_parser/http_request_headers.cc:124-170 | whatever is read from text is well formed and unique |
| StatusLine.ReadAgain | src/http_parser/http_response_headers.cc:492-551 | a written status line reads as the same version, code and reason, but for a 0.9 that has headers |
| StatusLine.NormalIsNormal | src/http_parser/http_response_headers.cc:492-551 | every status line is rewritten to one that is rewritten to itself |
| StatusLine.NormalAgainIff | src/http_parser/http_response_headers.cc:492-551 | read again with or without headers, a normal line stays exactly when it is not a 0.9 with headers, and beyond the version it always stays |
| StatusLine.ZeroNine | src/http_parser/http_response_headers.cc:492-551 | HTTP/0.9 200 OK stays without headers and becomes HTTP/1.0 200 OK with them |
| StatusTexts.CodeRead | src/http_parser/http_response_headers.cc:518-550 | behind the first spaces of a line its digits are the code, and what follows the next spaces, without trailing ones, the reason |
| StatusTexts.CodeAssumed | src/http_parser/http_response_headers.cc:518-536 | without digits there the code is 200, with the reason OK exactly when there was no space |
| StatusTexts.VersionRead | src/http_parser/http_response_headers.cc:458-491 | a line that begins with http and a slash, then a digit, and a digit behind the first dot, has these two digits as version |
| StatusTexts.VersionMissing | src/http_parser/http_response_headers.cc:458-491 | every other line has version 0.0 |
| StatusTexts.ClampIs | src/http_parser/http_response_headers.cc:496-513 | 2.0 and, without headers, 0.9 stay; every other version becomes 1.1 exactly when it is above 1.0, and otherwise 1.0 |
| StatusTexts.NormalText | src/http_parser/http_response_headers.cc:492-551 | the line that is written, byte by byte |
| ResponseLines.EntriesShape | src/http_parser/http_response_headers.cc:584-613 | however a value is split at commas, its entries begin with the name and span exactly the value, and only the first has a name |
| ResponseLines.GroupShape | src/http_parser/http_response_headers.cc:400-415 | among the entries of all lines, those of one line are a head and continuations up to the next head |
| HttpText.CutLineIff | src/http_parser/http_util.cc:747-770 | a response line is cut into this name and value if and only if it is the name, blanks, a colon, blanks, the value and blanks |
| HttpText.HeaderOfParts | src/http_parser/http_util.cc:747-770 | the parts put together, with any blanks, are such a line |
| ResponseValues.CommasExact | src/http_parser/http_response_headers.cc:592-600 | a value is cut at every comma outside quoted strings and nowhere else |
| ResponseValues.QuotedWhole | src/http_parser/http_response_headers.cc:592-600 | no cut goes through a quoted string, whatever text was quoted |
| ResponseValues.NonCoalescingIff | src/http_parser/http_util.cc:393-417 | the nine names whose value is never cut, written out |
| ResponseValues.ValuesIff | src/http_parser/http_response_headers.cc:584-602 | the values of a header are its whole text, or the stretches between the cuts without the blanks around them, and nothing else |
| ResponseValues.EntriesAreValues | src/http_parser/http_response_headers.cc:584-613 | the entries of a line are its values, in order |
| ResponseCoalesce.JoinIff | src/http_parser/http_response_headers.cc:354-376 | values joined by a comma and a space have the elements of all of them, in order, if and only if no value but the last leaves a quoted string open |
| ResponseTexts.RawOfWritten | src/http_parser/http_response_headers.cc:313-353 | parsing printed lines rewrites the status line and leaves the lines |
| ResponseTexts.HeadersOfWritten | src/http_parser/http_response_headers.cc:313-353 | the headers of printed lines are the headers of the lines, in order |
| ResponseTexts.SpansFaithful | src/http_parser/http_util.cc:747-770 | the text from a header's name to the end of its value is a line that gives the same header |
| ResponseHeaders.HttpResponseHeaders.constructor | src/http_parser/http_response_headers.cc:135-148 | parses any input into a valid object |
| ResponseHeaders.HttpResponseHeaders.Parse | src/http_parser/http_response_headers.cc:313-353 | the raw text is the rewritten status line, the rest of the input and as many NULs as it takes to end in two; the entries are those of its header lines |
| ResponseHeaders.HttpResponseHeaders.ParseStatusLine | src/http_parser/http_response_headers.cc:492-551 | writes the normal form of the line and records the clamped version |
| ResponseHeaders.HttpResponseHeaders.AddEntries | src/http_parser/http_response_headers.cc:584-613 | adds one entry for each value of a line, at its positions |
| ResponseHeaders.HttpResponseHeaders.EnumerateHeaderLines | src/http_parser/http_response_headers.cc:400-415 | from the first entry of a line gives that line's name and whole value and the first entry of the next |
| ResponseHeaders.HttpResponseHeaders.ListLines | src/http_parser/http_response_headers.cc:400-415 | going on until it ends gives all the headers in order |
| ResponseHeaders.HttpResponseHeaders.FindHeader | src/http_parser/http_response_headers.cc:552-562 | from the first entry of a line, the first line on from there with this name, ignoring case |
| ResponseHeaders.HttpResponseHeaders.EnumerateHeader | src/http_parser/http_response_headers.cc:416-438 | one call gives the next of the values of all lines of a name, in order, and the place of the one after it |
| ResponseHeaders.HttpResponseHeaders.HasHeader | src/http_parser/http_response_headers.cc:451-453 | whether a line has this name |
| ResponseHeaders.HttpResponseHeaders.HasHeaderValue | src/http_parser/http_response_headers.cc:439-450 | whether a line of this name has this value among its values, ignoring case |
| ResponseHeaders.HttpResponseHeaders.GetNormalizedHeader | src/http_parser/http_response_headers.cc:354-376 | the values of the lines of this name joined by a comma and a space; taken apart again they are the values that EnumerateHeader goes through if and only if no line but the last leaves a quoted string open |
| ResponseHeaders.HttpResponseHeaders.MergeWithHeaders | src/http_parser/http_response_headers.cc:192-215 | for any status line without NUL, the headers are those of the given lines followed by the old ones whose lower-case names are not to be removed, and the status line is the normal form of the given one |
| ResponseHeaders.HttpResponseHeaders.ReplaceStatusLine | src/http_parser/http_response_headers.cc:285-292 | the headers stay and the status line is the normal form of the new one |
| ResponseHeaders.HttpResponseHeaders.Update | src/http_parser/http_response_headers.cc:161-191 | the headers are the updatable ones of the new response followed by the old ones that none of those replaces, values unchanged; the status line stays exactly when it is not a 0.9 that now has headers; by name, the lines are those of the new response when it has some and the name is not one of those written out as never updated, and otherwise the old ones |
| ResponseHeaders.HttpResponseHeaders.RemoveHeader | src/http_parser/http_response_headers.cc:216-223 | the headers are the old ones without that name, ignoring case |
| ResponseHeaders.HttpResponseHeaders.AddHeader | src/http_parser/http_response_headers.cc:261-276 | the headers are the old ones and one more, its value trimmed |
| ResponseHeaders.HttpResponseHeaders.SetHeader | src/http_parser/http_response_headers.cc:277-281 | the old headers of the name go and the new one is the last |
| ResponseUpdate.UpdateByName | src/http_parser/http_response_headers.cc:98-109 | for each name the headers after an update are those of the new response when it has some and the name may be updated, and otherwise the old ones |
| ResponseUpdate.UpdateTwice | src/http_parser/http_response_headers.cc:161-215 | the same update again changes nothing |
| ResponseUpdate.ShouldUpdateIff | src/http_parser/http_response_headers.cc:68-109 | the names that are not updated, written out, and their two prefixes |
| ResponseUpdate.UpdateKeepsNames | src/http_parser/http_response_headers.cc:68-215 | for each name the lines after an update, in those terms |

## Left out

- HttpExecute.HttpParser.Execute: for a call whose bytewise run spends the header budget, only the failure and the grammar of its callbacks are stated, not the error number and the count, because the batch loops count a stretch at a time and may meet another error in it first.
- HttpExecute.HttpParser.CountHeaderSize: the budget is a natural number; the 32-bit counter of the source agrees with it while the bytes of one message's headers and one buffer stay below 2^32.
- HttpSplit.SplitIndependence: says nothing of runs that stop for an upgrade, after which the source expects no further call.
- UrlSplit.HttpParserUrl.ParseUrl: speaks of buffers of at most 65535 bytes, because the offsets and lengths of the struct are 16 bits wide and are cut beyond that.
- UrlSplit.HttpParserUrl.ParseHost: speaks of buffers of at most 65535 bytes, because the offsets and lengths of the struct are 16 bits wide and are cut beyond that.
- UrlSplit.HttpParserUrl.ScanFields: speaks of buffers of at most 65535 bytes, because the offsets and lengths of the struct are 16 bits wide and are cut beyond that.
- AlarmQueue.AlarmEventQueue.CallTimeoutAlarms: asks that callbacks arm only deadlines later than now, except through their return value, and create no alarms during the round; SetsItselfAgain shows that the round does not end otherwise.
- BodyQueue.QueuedWriteIOBuffer.Append: asks that the sum in its size test be a C int, as the source does by adding two of them.
- ResponseHeaders.HttpResponseHeaders.ParseStatusLine: the response code is not recorded; the source converts it with a library that is not shown.
- ResponseHeaders.HttpResponseHeaders.Update: the response code is not part of the model, and with it the demand that the new response be a 304 or 206; the source converts it with a library that is not shown.
- ResponseHeaders.HttpResponseHeaders.AddHeader: asks for a valid name and value, as the debug checks of the source do.
- HttpText.Tokens, ResponseLines.Commas and RequestHeaders.Pieces: the string tokenizer and splitter belong to a library that is not part of this model; they are splitting at delimiter bytes, at commas outside quote marks, and at CR LF with ASCII white space trimmed.
- HttpRoundTrip.RequestRoundTrip and HttpRoundTrip.ResponseRoundTrip: header lines are written on one line each and end in CR LF, and the answer of on_headers_complete is the same for every record; folded lines are the subject of HttpListRuns, and heads that go over to another protocol or are read until the end of input of HttpContents.TunnelStops and HttpContents.UntilCloseTaken.
- Parser callbacks are taken to return 0 and not to touch the parser, apart from the answer of on_headers_complete, which is a parameter; pausing, failing callbacks, the lenient and the non-strict build are not modelled.
- Raw headers with embedded NULs are modelled, but the normal form is stated for input without them, which is what TryToCreate admits.
- The QUIC-facing classes (dispatcher, session, packet writer, clock, the C interface in src/tQuicStack.cc), TLS and certificates: thin layers over libraries that are not shown.
- Range, cache-control, freshness, content-type and language headers, and name-value pair iteration: numbers and dates go through libraries that are not shown, and the rest would only add easy members.
- Memory: std::unique_ptr, arenas and iterators into freed text are values or nodes here, so lifetime errors are not expressible.
