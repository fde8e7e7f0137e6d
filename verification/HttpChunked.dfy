/** Chunked bodies: the decoder undoes the encoding of RFC 7230, section 4.1,
    for every list of chunks within the limits. */
module HttpChunked {
  import opened HttpSpec
  import opened Text
  import opened Numerals
  import opened HttpSplit

  /** A chunk as sent: a hex size, an optional extension and the data. */
  datatype Chunk = Chunk(hex: string, ext: string, data: string)

  ghost predicate ValidSizeLine(hex: string, ext: string, size: nat) {
    && hex + ext != "" && Numeral(hex, 16, size)
    && (ext == "" || ext[0] == ';') && '\n' !in ext
    && |hex| + |ext| < 32
  }

  ghost predicate ValidChunk(c: Chunk) {
    0 < |c.data| <= MAX_CHUNK_SIZE && ValidSizeLine(c.hex, c.ext, |c.data|)
  }

  function SizeLine(hex: string, ext: string): string { hex + ext + "\r\n" }

  function Encode(chunks: seq<Chunk>): string {
    if chunks == [] then ""
    else SizeLine(chunks[0].hex, chunks[0].ext) + chunks[0].data + "\r\n" + Encode(chunks[1..])
  }

  function Payload(chunks: seq<Chunk>): string {
    if chunks == [] then "" else chunks[0].data + Payload(chunks[1..])
  }

  lemma SizeLineParses(hex: string, ext: string, size: nat, bodyLength: nat)
    requires ValidSizeLine(hex, ext, size) && size <= MAX_CHUNK_SIZE && bodyLength + size <= MAX_BODY_SIZE
    ensures ParseChunkSize(hex + ext, bodyLength) == Some(size)
  {
    hide Numeral, Digits;
    NumeralIff(hex, 16, size);
    var line := hex + ext;
    if ext == "" {
      assert line == hex;
      assert ';' !in hex;
      assert IndexOf(line, ';') == -1;
    } else {
      assert line[..|hex|] == hex;
      assert ';' !in hex;
      IndexOfIs(line, ';', |hex|);
    }
  }

  /** The first line of the remaining input is the size line. */
  lemma SizeLineIsFirst(hex: string, ext: string, size: nat, tail: string)
    requires ValidSizeLine(hex, ext, size)
    ensures var e := |hex| + |ext| + 1; var rest := SizeLine(hex, ext) + tail;
            IndexOf(rest, '\n') == e && StripCR(rest[..e]) == hex + ext && rest[e + 1..] == tail
  {
    hide Numeral, Digits;
    NumeralIff(hex, 16, size);
    var e := |hex| + |ext| + 1;
    var rest := SizeLine(hex, ext) + tail;
    var raw := hex + ext + "\r";
    assert rest[..e] == raw;
    assert '\n' !in hex;
    assert '\n' !in raw;
    IndexOfIs(rest, '\n', e);
    assert raw[..|raw| - 1] == hex + ext;
    assert rest[e + 1..] == tail;
  }

  lemma StepOverSizeLine(p: Progress, hex: string, ext: string, size: nat, tail: string)
    requires p.Active? && p.phase == Body && p.chunked && p.contentLength == 0
    requires ValidSizeLine(hex, ext, size) && size <= MAX_CHUNK_SIZE && |p.req.body| + size <= MAX_BODY_SIZE
    requires p.rest == SizeLine(hex, ext) + tail
    ensures Step(p) == Next(p.(phase := if size == 0 then Done else Body, rest := tail, contentLength := size))
  {
    hide ParseChunkSize, StripCR, ValidSizeLine;
    SizeLineIsFirst(hex, ext, size, tail);
    SizeLineParses(hex, ext, size, |p.req.body|);
  }

  lemma StepOverData(p: Progress, data: string, tail: string)
    requires p.Active? && p.phase == Body && p.chunked && p.contentLength == |data| > 0
    requires p.rest == data + "\r\n" + tail
    ensures Step(p) == Next(p.(rest := tail, req := p.req.(body := p.req.body + data), contentLength := 0))
  {
    var n := |data|;
    assert p.rest[..n] == data;
    assert p.rest[n..n + 2] == "\r\n";
    assert p.rest[n + 2..] == tail;
  }

  /** Decoding: at the end the body is the concatenation of the chunks, and what is left
      starts right after the line of the last chunk. */
  lemma {:induction false} DecodesChunks(p: Progress, chunks: seq<Chunk>, lastHex: string, lastExt: string, suffix: string)
    requires p.Active? && p.phase == Body && p.chunked && p.contentLength == 0
    requires forall c :: c in chunks ==> ValidChunk(c)
    requires ValidSizeLine(lastHex, lastExt, 0)
    requires |p.req.body| + |Payload(chunks)| <= MAX_BODY_SIZE
    requires p.rest == Encode(chunks) + SizeLine(lastHex, lastExt) + suffix
    ensures Run(p) == p.(phase := Done, rest := suffix, req := p.req.(body := p.req.body + Payload(chunks)))
    decreases |chunks|
  {
    hide Step, ValidSizeLine, SizeLine;
    if chunks == [] {
      assert p.rest == SizeLine(lastHex, lastExt) + suffix;
      StepOverSizeLine(p, lastHex, lastExt, 0, suffix);
      assert p.req.body + "" == p.req.body;
      DoneHalts(p.(phase := Done, rest := suffix));
    } else {
      var c := chunks[0];
      var tail := Encode(chunks[1..]) + SizeLine(lastHex, lastExt) + suffix;
      assert ValidChunk(c);
      assert p.rest == SizeLine(c.hex, c.ext) + (c.data + "\r\n" + tail);
      StepOverSizeLine(p, c.hex, c.ext, |c.data|, c.data + "\r\n" + tail);
      var p1 := p.(rest := c.data + "\r\n" + tail, contentLength := |c.data|);
      StepOverData(p1, c.data, tail);
      var p2 := p.(rest := tail, req := p.req.(body := p.req.body + c.data));
      assert Step(p1) == Next(p2);
      DecodesChunks(p2, chunks[1..], lastHex, lastExt, suffix);
      assert p.req.body + c.data + Payload(chunks[1..]) == p.req.body + Payload(chunks);
    }
  }

  lemma DoneHalts(p: Progress)
    requires p.Active? && p.phase == Done
    ensures Run(p) == p
  {
  }
}
