/** Chunked bodies: the text of the chunks, written out from its parts, is read back as these parts. */
module HttpChunks {
  import opened Ascii
  import opened HttpTypes
  import opened HttpMachine
  import opened HttpTrace
  import opened HttpBatch
  import opened HttpTokens
  import opened HttpTakes
  import HttpFeed

  const SEMICOLON: byte := ';' as int

  /** A chunk: its size in digits, what follows the size on its line, and its data. */
  datatype Chunk = Chunk(size: bytes, ext: bytes, data: bytes)

  /** A line with a size that is accepted, and what may follow it. */
  predicate GoodSize(size: bytes, ext: bytes) {
    && size != [] && AllUnhex(size) && SizeValue(size[..|size| - 1]) <= SIZE_LIMIT
    && CR !in ext && (ext != [] ==> ext[0] == SEMICOLON || ext[0] == SP)
  }

  predicate GoodChunk(c: Chunk) { GoodSize(c.size, c.ext) && c.data != [] && SizeValue(c.size) == |c.data| }

  function SizeLine(size: bytes, ext: bytes): bytes { size + (ext + [CR, LF]) }

  function ChunkText(c: Chunk): bytes { SizeLine(c.size, c.ext) + (c.data + [CR, LF]) }

  function ChunkEvents(c: Chunk): seq<Event> {
    [ChunkHeader(|c.data|)] + Singles(Body, c.data, 0, |c.data|) + [ChunkComplete]
  }

  // ---------------------------------------------------------------- the line of a chunk

  lemma StepLine(cfg: Config, p: Parser, b: byte)
    requires p.state.ChunkLine? && p.nread < cfg.maxHeaderSize
    ensures Step(cfg, p, b) == SwitchChunkLine(p.(nread := p.nread + 1), b)
  {
    hide SwitchChunkLine;
    LineNext(p.(nread := p.nread + 1), b);
  }

  lemma LineNext(p: Parser, b: byte)
    requires p.state.ChunkLine?
    ensures !SwitchChunkLine(p, b).ctl.Again?
  {
  }

  lemma ExtByte(cfg: Config, p: Parser, b: byte)
    requires p.nread < cfg.maxHeaderSize && b != CR
    requires p.state == ChunkLine(Parameters) || (p.state == ChunkLine(Size) && (b == SEMICOLON || b == SP))
    ensures Step(cfg, p, b) == Out(p.(nread := p.nread + 1, state := ChunkLine(Parameters)), [], Next)
  {
    hide Step;
    StepLine(cfg, p, b);
    NoDigits();
  }

  lemma NoDigits()
    ensures Unhex(SEMICOLON) == -1 && Unhex(SP) == -1 && Unhex(CR) == -1
  {
  }

  lemma {:induction false} ExtTaken(cfg: Config, p: Parser, ext: bytes)
    requires p.state == ChunkLine(Size) && CR !in ext && (ext != [] ==> ext[0] == SEMICOLON || ext[0] == SP)
    requires p.nread + |ext| <= cfg.maxHeaderSize
    ensures Takes(cfg, p, ext,
                  p.(nread := p.nread + |ext|, state := ChunkLine(if ext == [] then Size else Parameters)), [])
    decreases |ext|
  {
    hide Takes, Step;
    if ext == [] {
      TakesNone(cfg, p);
    } else {
      var n := |ext| - 1;
      var init, b := ext[..n], ext[n];
      assert ext == init + [b] && b in ext;
      ExtTaken(cfg, p, init);
      var q := p.(nread := p.nread + n, state := ChunkLine(if init == [] then Size else Parameters));
      ExtByte(cfg, q, b);
      TakesQuiet(cfg, p, init, q, [], b, q.(nread := q.nread + 1, state := ChunkLine(Parameters)));
    }
  }

  lemma LineReturns(cfg: Config, p: Parser)
    requires (p.state == ChunkLine(Size) || p.state == ChunkLine(Parameters)) && p.nread < cfg.maxHeaderSize
    ensures Step(cfg, p, CR) == Out(p.(nread := p.nread + 1, state := ChunkLine(SizeAlmostDone)), [], Next)
  {
    hide Step;
    StepLine(cfg, p, CR);
  }

  /** The record behind the line of a chunk: in its data, or in the trailer. */
  function AtData(p: Parser, size: nat): Parser {
    var q := p.(nread := 0, contentLength := size);
    if size == 0 then q.(flags := q.flags.(trailing := true), state := HeaderFieldStart) else q.(state := ChunkData)
  }

  lemma LineFeeds(cfg: Config, p: Parser)
    requires p.state == ChunkLine(SizeAlmostDone) && p.nread < cfg.maxHeaderSize
    ensures Step(cfg, p, LF) == Out(AtData(p, p.contentLength), [ChunkHeader(p.contentLength)], Next)
  {
    hide Step;
    StepLine(cfg, p, LF);
  }

  lemma SizeLineTaken(cfg: Config, p: Parser, size: bytes, ext: bytes)
    requires p.state == ChunkLine(SizeStart) && GoodSize(size, ext)
    requires p.nread + |SizeLine(size, ext)| <= cfg.maxHeaderSize
    ensures Takes(cfg, p, SizeLine(size, ext), AtData(p, SizeValue(size)), [ChunkHeader(SizeValue(size))])
  {
    hide Takes, Step, SizeValue, AllUnhex;
    var v := SizeValue(size);
    SizeTaken(cfg, p, size);
    var q := p.(nread := p.nread + |size|, contentLength := v, state := ChunkLine(Size));
    ExtTaken(cfg, q, ext);
    var r := q.(nread := q.nread + |ext|, state := ChunkLine(if ext == [] then Size else Parameters));
    var none: seq<Event> := [];
    TakesThen(cfg, p, size, q, none, ext, r, none);
    assert none + none == none;
    LineReturns(cfg, r);
    var s := r.(nread := r.nread + 1, state := ChunkLine(SizeAlmostDone));
    TakesQuiet(cfg, p, size + ext, r, [], CR, s);
    LineFeeds(cfg, s);
    TakesByte(cfg, p, size + ext + [CR], s, [], LF);
    assert size + ext + [CR] + [LF] == SizeLine(size, ext);
    assert [] + [ChunkHeader(v)] == [ChunkHeader(v)];
  }

  lemma SizeTaken(cfg: Config, p: Parser, size: bytes)
    requires p.state == ChunkLine(SizeStart) && size != [] && AllUnhex(size)
    requires SizeValue(size[..|size| - 1]) <= SIZE_LIMIT && p.nread + |size| <= cfg.maxHeaderSize
    ensures Takes(cfg, p, size,
                  p.(nread := p.nread + |size|, contentLength := SizeValue(size), state := ChunkLine(Size)), [])
  {
    hide Run;
    ChunkSizeExact(cfg, p, size, |size|);
    assert size[..|size|] == size;
  }

  // ---------------------------------------------------------------- chunks

  lemma DataTaken(cfg: Config, p: Parser, data: bytes)
    requires p.state.ChunkData? && data != [] && p.contentLength == |data|
    ensures Takes(cfg, p, data, p.(contentLength := 0, state := ChunkDataAlmostDone), Singles(Body, data, 0, |data|))
  {
    hide Run, FinishMessage;
    HttpFeed.RunFrom(cfg, p, data);
    BodyRunEnds(cfg, p, data, 0, |data|);
    assert [] + Singles(Body, data, 0, |data|) == Singles(Body, data, 0, |data|);
  }

  lemma DataEnds(cfg: Config, p: Parser)
    requires p.state == ChunkDataAlmostDone
    ensures Step(cfg, p, CR) == Out(p.(state := ChunkDataDone), [], Next)
    ensures Step(cfg, p.(state := ChunkDataDone), LF)
            == Out(p.(nread := 0, state := ChunkLine(SizeStart)), [ChunkComplete], Next)
  {
  }

  /** A chunk is told by its size and its data, and leaves the record at the next one. */
  lemma ChunkTaken(cfg: Config, p: Parser, c: Chunk)
    requires p.state == ChunkLine(SizeStart) && GoodChunk(c) && p.nread + |SizeLine(c.size, c.ext)| <= cfg.maxHeaderSize
    ensures Takes(cfg, p, ChunkText(c), p.(nread := 0, contentLength := 0), ChunkEvents(c))
  {
    hide Takes, Step, SizeLine, SizeValue, Singles;
    var n, told := |c.data|, [ChunkHeader(|c.data|)];
    var line, body := SizeLine(c.size, c.ext), Singles(Body, c.data, 0, n);
    SizeLineTaken(cfg, p, c.size, c.ext);
    var q := p.(nread := 0, contentLength := n, state := ChunkData);
    DataTaken(cfg, q, c.data);
    var r := q.(contentLength := 0, state := ChunkDataAlmostDone);
    TakesThen(cfg, p, line, q, told, c.data, r, body);
    DataEnds(cfg, r);
    TakesQuiet(cfg, p, line + c.data, r, told + body, CR, r.(state := ChunkDataDone));
    TakesByte(cfg, p, line + c.data + [CR], r.(state := ChunkDataDone), told + body, LF);
    assert line + c.data + [CR] + [LF] == ChunkText(c);
  }

  function ChunksText(cs: seq<Chunk>): bytes {
    if cs == [] then [] else ChunksText(cs[..|cs| - 1]) + ChunkText(cs[|cs| - 1])
  }

  function ChunksEvents(cs: seq<Chunk>): seq<Event> {
    if cs == [] then [] else ChunksEvents(cs[..|cs| - 1]) + ChunkEvents(cs[|cs| - 1])
  }

  /** Every line fits the header limit on its own. */
  predicate GoodChunks(cfg: Config, cs: seq<Chunk>) {
    forall i | 0 <= i < |cs| :: GoodChunk(cs[i]) && |SizeLine(cs[i].size, cs[i].ext)| <= cfg.maxHeaderSize
  }

  lemma {:induction false} ChunksTaken(cfg: Config, p: Parser, cs: seq<Chunk>) returns (q: Parser)
    requires p.state == ChunkLine(SizeStart) && p.nread == 0 && GoodChunks(cfg, cs)
    ensures Takes(cfg, p, ChunksText(cs), q, ChunksEvents(cs)) && q == p.(contentLength := q.contentLength)
    decreases |cs|
  {
    hide Takes, GoodChunk, SizeLine, ChunkText, ChunkEvents;
    if cs == [] {
      TakesNone(cfg, p);
      q := p;
    } else {
      var n := |cs| - 1;
      var init, c := cs[..n], cs[n];
      var r := ChunksTaken(cfg, p, init);
      ChunkTaken(cfg, r, c);
      q := r.(nread := 0, contentLength := 0);
      TakesThen(cfg, p, ChunksText(init), r, ChunksEvents(init), ChunkText(c), q, ChunkEvents(c));
    }
  }
}
