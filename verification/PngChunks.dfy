/** The PNG chunk parser and stripper of scripts/strip_png_metadata.py, over the chunk layout of
    section 5.3 of the W3C PNG Specification, Third Edition: length, type, data, CRC. */
module PngChunks {
  type Byte = b: nat | b < 256

  type Bytes = seq<Byte>

  /** A chunk's type and its raw bytes, from the length field to the CRC. */
  datatype Chunk = Chunk(kind: Bytes, raw: Bytes)

  datatype PngError = MissingSignature | Truncated(kind: Bytes) | MissingIend

  datatype Result<T> = Ok(value: T) | Err(error: PngError)

  const SIGNATURE: Bytes := [0x89, 0x50, 0x4E, 0x47, 0x0D, 0x0A, 0x1A, 0x0A]
  const IHDR: Bytes := [0x49, 0x48, 0x44, 0x52]
  const PLTE: Bytes := [0x50, 0x4C, 0x54, 0x45]
  const IDAT: Bytes := [0x49, 0x44, 0x41, 0x54]
  const IEND: Bytes := [0x49, 0x45, 0x4E, 0x44]
  const TRNS: Bytes := [0x74, 0x52, 0x4E, 0x53]
  const SRGB: Bytes := [0x73, 0x52, 0x47, 0x42]
  const GAMA: Bytes := [0x67, 0x41, 0x4D, 0x41]
  const CHRM: Bytes := [0x63, 0x48, 0x52, 0x4D]
  const ICCP: Bytes := [0x69, 0x43, 0x43, 0x50]
  const SBIT: Bytes := [0x73, 0x42, 0x49, 0x54]
  const BKGD: Bytes := [0x62, 0x4B, 0x47, 0x44]
  const PHYS: Bytes := [0x70, 0x48, 0x59, 0x73]

  predicate Keep(kind: Bytes) {
    || kind == IHDR || kind == PLTE || kind == IDAT || kind == IEND || kind == TRNS || kind == SRGB
    || kind == GAMA || kind == CHRM || kind == ICCP || kind == SBIT || kind == BKGD || kind == PHYS
  }

  /** `struct.unpack(">I", ...)`. */
  function BigEndian(b: Bytes): nat
    requires |b| >= 4
  {
    (b[0] as int * 0x100_0000) + (b[1] as int * 0x1_0000) + (b[2] as int * 0x100) + b[3] as int
  }

  // ----- Printing -----

  /** The raw bytes are one whole chunk of that type. */
  predicate IsChunk(c: Chunk) {
    |c.raw| >= 12 && |c.raw| == 12 + BigEndian(c.raw) && c.kind == c.raw[4..8]
  }

  predicate Body(chunks: seq<Chunk>) {
    forall i :: 0 <= i < |chunks| ==> IsChunk(chunks[i]) && chunks[i].kind != IEND
  }

  /** Chunks up to and including the first IEND. */
  predicate Image(chunks: seq<Chunk>) {
    chunks != [] && Body(chunks[..|chunks| - 1]) && IsChunk(chunks[|chunks| - 1]) && chunks[|chunks| - 1].kind == IEND
  }

  function Join(chunks: seq<Chunk>): Bytes {
    if chunks == [] then [] else chunks[0].raw + Join(chunks[1..])
  }

  function Print(chunks: seq<Chunk>): Bytes {
    SIGNATURE + Join(chunks)
  }

  // ----- Parsing -----

  /** The chunks of what follows the signature. */
  function ChunksOf(d: Bytes): Result<seq<Chunk>> {
    if |d| < 8 then Err(MissingIend)
    else
      var end := 12 + BigEndian(d);
      var kind := d[4..8];
      if end > |d| then Err(Truncated(kind))
      else if kind == IEND then Ok([Chunk(kind, d[..end])])
      else Consed(Chunk(kind, d[..end]), ChunksOf(d[end..]))
  }

  function Consed(c: Chunk, rest: Result<seq<Chunk>>): Result<seq<Chunk>> {
    match rest
    case Ok(chunks) => Ok([c] + chunks)
    case Err(e) => Err(e)
  }

  function Parse(d: Bytes): Result<seq<Chunk>> {
    if SIGNATURE <= d then ChunksOf(d[|SIGNATURE|..]) else Err(MissingSignature)
  }

  function Behind(done: seq<Chunk>, rest: Result<seq<Chunk>>): Result<seq<Chunk>> {
    match rest
    case Ok(chunks) => Ok(done + chunks)
    case Err(e) => Err(e)
  }

  /** `iter_chunks`, collected. */
  method IterChunks(d: Bytes) returns (r: Result<seq<Chunk>>)
    ensures r == Parse(d)
  {
    hide BigEndian;
    if !(SIGNATURE <= d) {
      return Err(MissingSignature);
    }
    var pos := |SIGNATURE|;
    var chunks: seq<Chunk> := [];
    BehindNothing(Parse(d));
    while pos + 8 <= |d|
      invariant |SIGNATURE| <= pos <= |d|
      invariant Parse(d) == Behind(chunks, ChunksOf(d[pos..]))
      decreases |d| - pos
    {
      var rest := d[pos..];
      var end := pos + 12 + BigEndian(d[pos..pos + 4]);
      assert BigEndian(d[pos..pos + 4]) == BigEndian(rest) by { SameFirstFour(d[pos..pos + 4], rest); }
      var kind := d[pos + 4..pos + 8];
      assert kind == rest[4..8];
      var before := chunks;
      if end > |d| {
        return Err(Truncated(kind));
      }
      assert d[pos..end] == rest[..end - pos] && d[end..] == rest[end - pos..];
      chunks := chunks + [Chunk(kind, d[pos..end])];
      if kind == IEND {
        return Ok(chunks);
      }
      BehindOne(before, Chunk(kind, d[pos..end]), ChunksOf(d[end..]));
      pos := end;
    }
    return Err(MissingIend);
  }

  lemma BehindNothing(rest: Result<seq<Chunk>>)
    ensures Behind([], rest) == rest
  {
    if rest.Ok? {
      assert [] + rest.value == rest.value;
    }
  }

  lemma BehindOne(done: seq<Chunk>, c: Chunk, rest: Result<seq<Chunk>>)
    ensures Behind(done, Consed(c, rest)) == Behind(done + [c], rest)
    ensures Consed(c, Behind(done, rest)) == Behind([c] + done, rest)
  {
    if rest.Ok? {
      assert done + ([c] + rest.value) == done + [c] + rest.value;
      assert [c] + (done + rest.value) == [c] + done + rest.value;
    }
  }

  lemma SameFirstFour(a: Bytes, b: Bytes)
    requires |a| >= 4 && |b| >= 4 && a[..4] == b[..4]
    ensures BigEndian(a) == BigEndian(b)
  {
    assert forall i :: 0 <= i < 4 ==> a[i] == a[..4][i] && b[i] == b[..4][i];
  }

  // ----- Parsing undoes printing, and printing undoes parsing -----

  lemma ReadsOneChunk(c: Chunk, rest: Bytes)
    requires IsChunk(c)
    ensures |c.raw + rest| >= 8 && BigEndian(c.raw + rest) == BigEndian(c.raw)
    ensures (c.raw + rest)[4..8] == c.kind && (c.raw + rest)[..|c.raw|] == c.raw && (c.raw + rest)[|c.raw|..] == rest
  {
    SameFirstFour(c.raw + rest, c.raw);
  }

  lemma {:induction false} ReadsBody(body: seq<Chunk>, rest: Bytes)
    requires Body(body)
    ensures ChunksOf(Join(body) + rest) == Behind(body, ChunksOf(rest))
  {
    hide ChunksOf, Behind, Consed;
    if body == [] {
      assert Join(body) + rest == rest;
      BehindNothing(ChunksOf(rest));
    } else {
      var c := body[0];
      ReadsBody(body[1..], rest);
      assert Join(body) + rest == c.raw + (Join(body[1..]) + rest);
      FirstChunk(c, Join(body[1..]) + rest);
      BehindOne(body[1..], c, ChunksOf(rest));
      assert body == [c] + body[1..];
    }
  }

  lemma FirstChunk(c: Chunk, rest: Bytes)
    requires IsChunk(c)
    ensures ChunksOf(c.raw + rest) == if c.kind == IEND then Ok([c]) else Consed(c, ChunksOf(rest))
  {
    hide BigEndian, Consed;
    ReadsOneChunk(c, rest);
    assert ChunksOf(c.raw + rest) ==
      (if c.kind == IEND then Ok([Chunk(c.kind, c.raw)]) else Consed(Chunk(c.kind, c.raw), ChunksOf(rest)));
  }

  /** Whatever follows IEND is ignored. */
  lemma PrintedImagesParse(chunks: seq<Chunk>, trailing: Bytes)
    requires Image(chunks)
    ensures Parse(Print(chunks) + trailing) == Ok(chunks)
  {
    hide ChunksOf, IsChunk, Body, Join;
    var n := |chunks| - 1;
    var last := chunks[n];
    JoinLast(chunks);
    var d := Join(chunks) + trailing;
    assert d == Join(chunks[..n]) + (last.raw + trailing);
    ReadsBody(chunks[..n], last.raw + trailing);
    FirstChunk(last, trailing);
    assert chunks == chunks[..n] + [last];
    assert (Print(chunks) + trailing)[|SIGNATURE|..] == d;
  }

  lemma {:induction false} JoinLast(chunks: seq<Chunk>)
    requires chunks != []
    ensures Join(chunks) == Join(chunks[..|chunks| - 1]) + chunks[|chunks| - 1].raw
  {
    if |chunks| > 1 {
      JoinLast(chunks[1..]);
      assert chunks[1..][..|chunks| - 2] == chunks[..|chunks| - 1][1..];
    }
  }

  /** What parses is a printed image and some trailing bytes. */
  lemma {:induction false} ParsedChunks(d: Bytes)
    requires ChunksOf(d).Ok?
    ensures Image(ChunksOf(d).value) && Join(ChunksOf(d).value) <= d
    decreases |d|
  {
    hide BigEndian;
    var end := 12 + BigEndian(d);
    SameFirstFour(d[..end], d);
    var c := Chunk(d[4..8], d[..end]);
    assert d[..end][4..8] == d[4..8];
    assert d == d[..end] + d[end..];
    if c.kind != IEND {
      ParsedChunks(d[end..]);
      var rest := ChunksOf(d[end..]).value;
      var chunks := [c] + rest;
      assert chunks[1..] == rest;
      assert chunks[..|chunks| - 1] == [c] + rest[..|rest| - 1];
    } else {
      assert Join([c]) == c.raw + Join([]);
    }
  }

  /** A file parses to `chunks` exactly when they are an image and the file is their print, with
      anything behind IEND. */
  lemma ParseExactly(d: Bytes, chunks: seq<Chunk>)
    ensures Parse(d) == Ok(chunks) <==> Image(chunks) && Print(chunks) <= d
  {
    hide BigEndian, ChunksOf, Image;
    if Parse(d) == Ok(chunks) {
      ParsedChunks(d[|SIGNATURE|..]);
      assert d == SIGNATURE + d[|SIGNATURE|..];
    }
    if Image(chunks) && Print(chunks) <= d {
      var trailing := d[|Print(chunks)|..];
      assert d == Print(chunks) + trailing;
      PrintedImagesParse(chunks, trailing);
    }
  }

  // ----- strip -----

  function Kept(chunks: seq<Chunk>): seq<Chunk> {
    if chunks == [] then []
    else Kept(chunks[..|chunks| - 1]) + (if Keep(chunks[|chunks| - 1].kind) then [chunks[|chunks| - 1]] else [])
  }

  /** `strip`. */
  function Strip(d: Bytes): Result<Bytes> {
    match Parse(d)
    case Ok(chunks) => Ok(Print(Kept(chunks)))
    case Err(e) => Err(e)
  }

  lemma {:induction false} KeptIsBody(chunks: seq<Chunk>)
    requires Body(chunks)
    ensures Body(Kept(chunks))
  {
    hide BigEndian, IsChunk;
    if chunks != [] {
      KeptIsBody(chunks[..|chunks| - 1]);
    }
  }

  lemma {:induction false} KeptTwice(chunks: seq<Chunk>)
    ensures Kept(Kept(chunks)) == Kept(chunks)
  {
    if chunks != [] {
      var n := |chunks| - 1;
      KeptTwice(chunks[..n]);
      if Keep(chunks[n].kind) {
        assert Kept(chunks)[..|Kept(chunks)| - 1] == Kept(chunks[..n]);
      } else {
        assert Kept(chunks) == Kept(chunks[..n]);
      }
    }
  }

  lemma KeptIsImage(chunks: seq<Chunk>)
    requires Image(chunks)
    ensures Image(Kept(chunks))
  {
    hide BigEndian, IsChunk;
    var n := |chunks| - 1;
    KeptIsBody(chunks[..n]);
    assert Kept(chunks)[..|Kept(chunks)| - 1] == Kept(chunks[..n]);
  }

  /** The stripped file parses, to exactly the kept chunks in order and byte for byte. */
  lemma StripKeepsExactly(d: Bytes)
    requires Parse(d).Ok?
    ensures Strip(d).Ok? && Parse(Strip(d).value) == Ok(Kept(Parse(d).value))
  {
    hide Image, ChunksOf, Print;
    var chunks := Parse(d).value;
    ParseExactly(d, chunks);
    KeptIsImage(chunks);
    PrintedImagesParse(Kept(chunks), []);
    assert Print(Kept(chunks)) + [] == Print(Kept(chunks));
  }

  /** Stripping a stripped file changes nothing. */
  lemma StripTwice(d: Bytes)
    requires Strip(d).Ok?
    ensures Strip(Strip(d).value) == Strip(d)
  {
    hide ChunksOf, Print, Kept;
    StripKeepsExactly(d);
    KeptTwice(Parse(d).value);
  }

  // ----- Errors -----

  /** Where parsing stops without an image: after whole chunks, at a header that is cut off or
      that promises more bytes than are left. */
  ghost predicate StopsAt(d: Bytes, body: seq<Chunk>, tail: Bytes) {
    Body(body) && d == Print(body) + tail && (|tail| < 8 || 12 + BigEndian(tail) > |tail|)
  }

  function ErrorAt(tail: Bytes): PngError {
    if |tail| < 8 then MissingIend else Truncated(tail[4..8])
  }

  /** The two errors behind the signature, exactly. */
  lemma ErrorsAreExact(d: Bytes, body: seq<Chunk>, tail: Bytes)
    requires StopsAt(d, body, tail)
    ensures Parse(d) == Err(ErrorAt(tail))
  {
    hide BigEndian;
    assert d[|SIGNATURE|..] == Join(body) + tail;
    ReadsBody(body, tail);
  }

  lemma {:induction false} FindStop(d: Bytes) returns (body: seq<Chunk>, tail: Bytes)
    requires ChunksOf(d).Err?
    ensures Body(body) && d == Join(body) + tail && (|tail| < 8 || 12 + BigEndian(tail) > |tail|)
    decreases |d|
  {
    hide BigEndian;
    if |d| < 8 || 12 + BigEndian(d) > |d| {
      body, tail := [], d;
    } else {
      var end := 12 + BigEndian(d);
      SameFirstFour(d[..end], d);
      assert d[..end][4..8] == d[4..8];
      body, tail := FindStop(d[end..]);
      var c := Chunk(d[4..8], d[..end]);
      body := [c] + body;
      assert d == d[..end] + d[end..];
    }
  }

  /** A file fails to parse exactly when it lacks the signature or stops inside a chunk. */
  lemma FailsExactly(d: Bytes)
    ensures Parse(d).Err? <==> !(SIGNATURE <= d) || exists body, tail :: StopsAt(d, body, tail)
  {
    hide BigEndian, ChunksOf;
    if SIGNATURE <= d && Parse(d).Err? {
      var body, tail := FindStop(d[|SIGNATURE|..]);
      assert d == SIGNATURE + d[|SIGNATURE|..];
      assert StopsAt(d, body, tail);
    }
    if body, tail :| StopsAt(d, body, tail) {
      ErrorsAreExact(d, body, tail);
    }
  }
}
