/** PNG files written by hand, field by field as section 5.3 of the W3C PNG Specification, Third
    Edition, lays them out, and what the parser and the stripper make of them. */
module PngLayout {
  import opened Common
  import opened PngChunks

  /** The bytes of an ASCII text. */
  function Ascii(s: string): (b: Bytes)
    ensures |b| == |s|
  {
    seq(|s|, i requires 0 <= i < |s| => if s[i] < 128 as char then s[i] as int else 0)
  }

  function Head(): Bytes {
    [137] + Ascii("PNG") + [13, 10, 26, 10]
  }

  datatype Field = Field(kind: Bytes, data: Bytes, crc: Bytes)

  predicate Fits(f: Field) {
    |f.kind| == 4 && |f.crc| == 4 && |f.data| < 0x1_0000_0000
  }

  /** The most significant byte first. */
  function Length(n: nat): Bytes
    requires n < 0x1_0000_0000
  {
    [n / 0x100_0000, n / 0x1_0000 % 256, n / 0x100 % 256, n % 256]
  }

  function Encoded(f: Field): Bytes
    requires Fits(f)
  {
    Length(|f.data|) + f.kind + f.data + f.crc
  }

  predicate AllFit(fs: seq<Field>) {
    forall i :: 0 <= i < |fs| ==> Fits(fs[i])
  }

  /** Fields up to and including the first IEND. */
  predicate IsFile(fs: seq<Field>) {
    && fs != [] && AllFit(fs) && fs[|fs| - 1].kind == Ascii("IEND")
    && forall i :: 0 <= i < |fs| - 1 ==> fs[i].kind != Ascii("IEND")
  }

  function Layout(fs: seq<Field>): Bytes
    requires AllFit(fs)
  {
    if fs == [] then [] else Encoded(fs[0]) + Layout(fs[1..])
  }

  function Chunks(fs: seq<Field>): (cs: seq<Chunk>)
    requires AllFit(fs)
    ensures |cs| == |fs| && forall i :: 0 <= i < |fs| ==> cs[i] == Chunk(fs[i].kind, Encoded(fs[i]))
  {
    seq(|fs|, i requires 0 <= i < |fs| => Chunk(fs[i].kind, Encoded(fs[i])))
  }

  lemma Names()
    ensures SIGNATURE == Head() && IEND == Ascii("IEND")
  {
  }

  lemma DigitsOf(n: nat)
    requires n < 0x1_0000_0000
    ensures n == (n / 0x100_0000) * 0x100_0000 + (n / 0x1_0000 % 256) * 0x1_0000 + (n / 0x100 % 256) * 0x100 + n % 256
  {
    assert n / 0x1_0000 == n / 0x100_0000 * 256 + n / 0x1_0000 % 256;
    assert n / 0x100 == n / 0x1_0000 * 256 + n / 0x100 % 256;
  }

  lemma LengthReads(n: nat, rest: Bytes)
    requires n < 0x1_0000_0000
    ensures BigEndian(Length(n) + rest) == n
  {
    DigitsOf(n);
  }

  lemma EncodedIsChunk(f: Field)
    requires Fits(f)
    ensures IsChunk(Chunk(f.kind, Encoded(f)))
  {
    var n := |f.data|;
    LengthReads(n, f.kind + f.data + f.crc);
    assert Encoded(f) == Length(n) + (f.kind + f.data + f.crc);
    assert Encoded(f)[4..8] == f.kind;
  }

  lemma {:induction false} LayoutIsJoin(fs: seq<Field>)
    requires AllFit(fs)
    ensures Layout(fs) == Join(Chunks(fs))
  {
    hide Encoded;
    if fs != [] {
      LayoutIsJoin(fs[1..]);
      assert Chunks(fs)[1..] == Chunks(fs[1..]);
    }
  }

  lemma FileIsImage(fs: seq<Field>)
    requires IsFile(fs)
    ensures Image(Chunks(fs)) && Print(Chunks(fs)) == Head() + Layout(fs)
  {
    hide Encoded, IsChunk, Ascii, Head;
    Names();
    LayoutIsJoin(fs);
    forall i | 0 <= i < |fs| ensures IsChunk(Chunks(fs)[i]) {
      EncodedIsChunk(fs[i]);
    }
  }

  /** A file laid out by hand parses to exactly its fields, whatever follows IEND. */
  lemma LayoutParses(fs: seq<Field>, trailing: Bytes)
    requires IsFile(fs)
    ensures Parse(Head() + Layout(fs) + trailing) == Ok(Chunks(fs))
  {
    hide Parse, Print, Layout, Image, Head;
    FileIsImage(fs);
    PrintedImagesParse(Chunks(fs), trailing);
  }

  lemma ReadsLength(raw: Bytes)
    requires |raw| >= 4
    ensures BigEndian(raw) < 0x1_0000_0000 && Length(BigEndian(raw)) == raw[..4]
  {
    Digits(raw[0], raw[1], raw[2], raw[3]);
    assert raw[..4] == [raw[0], raw[1], raw[2], raw[3]];
  }

  lemma Digits(a: Byte, b: Byte, c: Byte, d: Byte)
    ensures var n := a as int * 0x100_0000 + b as int * 0x1_0000 + c as int * 0x100 + d as int;
      n < 0x1_0000_0000 && Length(n) == [a, b, c, d]
  {
    var n := a as int * 0x100_0000 + b as int * 0x1_0000 + c as int * 0x100 + d as int;
    assert n / 0x100 == a as int * 0x1_0000 + b as int * 0x100 + c as int;
    assert n / 0x1_0000 == a as int * 0x100 + b as int;
    assert n / 0x100_0000 == a as int;
  }

  /** The fields of a raw chunk. */
  lemma ChunkIsEncoded(c: Chunk) returns (f: Field)
    requires IsChunk(c)
    ensures Fits(f) && c == Chunk(f.kind, Encoded(f))
  {
    hide BigEndian, Length;
    var n := |c.raw|;
    f := Field(c.raw[4..8], c.raw[8..n - 4], c.raw[n - 4..]);
    ReadsLength(c.raw);
    assert c.raw == c.raw[..4] + c.raw[4..8] + c.raw[8..n - 4] + c.raw[n - 4..];
  }

  lemma {:induction false} ChunksAreFields(cs: seq<Chunk>) returns (fs: seq<Field>)
    requires forall i :: 0 <= i < |cs| ==> IsChunk(cs[i])
    ensures AllFit(fs) && cs == Chunks(fs)
  {
    hide IsChunk, Encoded, Fits;
    if cs == [] {
      fs := [];
    } else {
      var n := |cs| - 1;
      fs := ChunksAreFields(cs[..n]);
      var f := ChunkIsEncoded(cs[n]);
      var before := fs;
      fs := fs + [f];
      assert cs == cs[..n] + [cs[n]];
      assert Chunks(fs) == Chunks(before) + [Chunk(f.kind, Encoded(f))];
    }
  }

  /** And every file that parses has that form. */
  lemma ParsedIsLayout(d: Bytes) returns (fs: seq<Field>)
    requires Parse(d).Ok?
    ensures IsFile(fs) && Parse(d).value == Chunks(fs) && Head() + Layout(fs) <= d
  {
    var cs := Parse(d).value;
    ParseExactly(d, cs);
    hide Parse, Image, Print, Head, Layout;
    fs := ImageIsFile(cs);
  }

  lemma ImageIsFile(cs: seq<Chunk>) returns (fs: seq<Field>)
    requires Image(cs)
    ensures IsFile(fs) && cs == Chunks(fs) && Print(cs) == Head() + Layout(fs)
  {
    hide IsChunk, Encoded, Fits, Ascii, Head, Join;
    Names();
    assert forall i :: 0 <= i < |cs| - 1 ==> cs[..|cs| - 1][i] == cs[i];
    fs := ChunksAreFields(cs);
    LayoutIsJoin(fs);
  }

  // ----- strip -----

  /** The chunks an image needs, and those for colour and transparency. */
  predicate Wanted(kind: Bytes) {
    kind in {
      Ascii("IHDR"), Ascii("PLTE"), Ascii("IDAT"), Ascii("IEND"), Ascii("tRNS"), Ascii("sRGB"),
      Ascii("gAMA"), Ascii("cHRM"), Ascii("iCCP"), Ascii("sBIT"), Ascii("bKGD"), Ascii("pHYs")}
  }

  lemma KeepsByName(kind: Bytes)
    ensures Keep(kind) <==> Wanted(kind)
  {
    assert Ascii("IHDR") == IHDR && Ascii("PLTE") == PLTE && Ascii("IDAT") == IDAT && Ascii("IEND") == IEND;
    assert Ascii("tRNS") == TRNS && Ascii("sRGB") == SRGB && Ascii("gAMA") == GAMA && Ascii("cHRM") == CHRM;
    assert Ascii("iCCP") == ICCP && Ascii("sBIT") == SBIT && Ascii("bKGD") == BKGD && Ascii("pHYs") == PHYS;
  }

  /** Texts, EXIF, timestamps and vendor chunks go. */
  lemma MetadataGoes(kind: Bytes)
    requires kind in {Ascii("tEXt"), Ascii("zTXt"), Ascii("iTXt"), Ascii("eXIf"), Ascii("tIME"), Ascii("iDOT")}
    ensures !Keep(kind)
  {
    assert kind[0] in {116, 122, 105, 101};
    assert kind[1] in {69, 84, 88, 73, 68};
    assert kind[0] == 116 ==> kind[1] == 69 || kind[1] == 73;
    assert kind[0] == 105 ==> kind[1] == 84 || kind[1] == 68;
  }

  function OnlyWanted(fs: seq<Field>): (r: seq<Field>)
    requires AllFit(fs)
    ensures AllFit(r)
  {
    if fs == [] then []
    else
      var n := |fs| - 1;
      OnlyWanted(fs[..n]) + (if Wanted(fs[n].kind) then [fs[n]] else [])
  }

  lemma {:induction false} KeptIsWanted(fs: seq<Field>)
    requires AllFit(fs)
    ensures Kept(Chunks(fs)) == Chunks(OnlyWanted(fs))
  {
    hide Keep, Wanted, Encoded, Fits;
    if fs != [] {
      var n := |fs| - 1;
      KeptIsWanted(fs[..n]);
      KeepsByName(fs[n].kind);
      assert Chunks(fs)[..n] == Chunks(fs[..n]);
    }
  }

  /** Stripping leaves exactly the wanted fields of a file, in order. */
  lemma StripsByName(fs: seq<Field>, trailing: Bytes)
    requires IsFile(fs)
    ensures Strip(Head() + Layout(fs) + trailing) == Ok(Head() + Layout(OnlyWanted(fs)))
  {
    hide Parse, Layout, Head, Join, Kept, OnlyWanted;
    LayoutParses(fs, trailing);
    KeptIsWanted(fs);
    LayoutIsJoin(OnlyWanted(fs));
    Names();
  }
}
