/** The PNG container that app/core/security/transport.py writes by hand, and a reader for it.

    The writer prefixes every scanline with filter type 0 and wraps header, compressed image
    data and end marker in length/type/data/checksum chunks (sections 3.2, 4.1 and 6.2 of
    RFC 2083).  The compressor and the checksum are parameters; of the compressor only its
    inverse is assumed. */
module Png {
  import opened Bytes
  import opened Wrappers

  const WORD := 0x1_0000_0000
  const SIGNATURE: seq<Byte> := [0x89, 0x50, 0x4E, 0x47, 0x0D, 0x0A, 0x1A, 0x0A]
  const IHDR: seq<Byte> := [0x49, 0x48, 0x44, 0x52]
  const IDAT: seq<Byte> := [0x49, 0x44, 0x41, 0x54]
  const IEND: seq<Byte> := [0x49, 0x45, 0x4E, 0x44]

  datatype Chunk = Chunk(kind: seq<Byte>, data: seq<Byte>)

  datatype Codec = Codec(
    compress: seq<Byte> -> seq<Byte>,
    decompress: seq<Byte> -> seq<Byte>,
    crc: seq<Byte> -> nat)

  ghost predicate Lossless(codec: Codec) {
    forall s :: codec.decompress(codec.compress(s)) == s
  }

  // ---- Big-endian words ----

  function PackWord(n: nat): seq<Byte>
    requires n < WORD
  {
    [n / 0x100_0000, (n / 0x1_0000) % 0x100, (n / 0x100) % 0x100, n % 0x100]
  }

  function UnpackWord(s: seq<Byte>): nat
    requires |s| == 4
  {
    var a: int, b: int, c: int, d: int := s[0], s[1], s[2], s[3];
    a * 0x100_0000 + b * 0x1_0000 + c * 0x100 + d
  }

  lemma {:induction false} WordRoundTrip(n: nat)
    requires n < WORD
    ensures UnpackWord(PackWord(n)) == n
    ensures var w := PackWord(n);
            |w| == 4 && n == 0x1_0000 * (0x100 * (w[0] as int) + w[1] as int) + 0x100 * (w[2] as int) + w[3] as int
  {
    var a := n / 0x100;
    var b := a / 0x100;
    assert b == n / 0x1_0000 && b / 0x100 == n / 0x100_0000;
  }

  // ---- Chunks ----

  /** None where packing the length would overflow its four bytes and the writer raises. */
  function PngChunk(codec: Codec, chunk: Chunk): Option<seq<Byte>> {
    if |chunk.data| >= WORD then None
    else Some(PackWord(|chunk.data|) + chunk.kind + chunk.data
              + PackWord(codec.crc(chunk.kind + chunk.data) % WORD))
  }

  function WriteChunks(codec: Codec, chunks: seq<Chunk>): Option<seq<Byte>> {
    if chunks == [] then Some([])
    else
      var head, tail := PngChunk(codec, chunks[0]), WriteChunks(codec, chunks[1..]);
      if head.None? || tail.None? then None else Some(head.value + tail.value)
  }

  /** Reads a stream of chunks to its end, checking every length and every checksum. */
  function ReadChunks(codec: Codec, s: seq<Byte>): Option<seq<Chunk>> {
    if s == [] then Some([])
    else if |s| < 12 then None
    else
      var n := UnpackWord(s[..4]);
      if |s| < 12 + n then None
      else
        var chunk := Chunk(s[4..8], s[8..8 + n]);
        if UnpackWord(s[8 + n..12 + n]) != codec.crc(chunk.kind + chunk.data) % WORD then None
        else
          var rest := ReadChunks(codec, s[12 + n..]);
          if rest.None? then None else Some([chunk] + rest.value)
  }

  /** One chunk at the head of a stream is read back, and the rest is left untouched. */
  lemma {:induction false} ChunkRoundTrip(codec: Codec, c: Chunk, tail: seq<Byte>)
    requires |c.kind| == 4 && PngChunk(codec, c).Some?
    ensures var s, n := PngChunk(codec, c).value + tail, |c.data|;
            && |s| >= 12 + n && UnpackWord(s[..4]) == n
            && s[4..8] == c.kind && s[8..8 + n] == c.data && s[12 + n..] == tail
            && UnpackWord(s[8 + n..12 + n]) == codec.crc(c.kind + c.data) % WORD
  {
    var n, sum := |c.data|, codec.crc(c.kind + c.data) % WORD;
    var s := PngChunk(codec, c).value + tail;
    assert s[..4] == PackWord(n) && s[8 + n..12 + n] == PackWord(sum);
    WordRoundTrip(n);
    WordRoundTrip(sum);
  }

  lemma {:induction false} ChunksRoundTrip(codec: Codec, chunks: seq<Chunk>)
    requires forall c :: c in chunks ==> |c.kind| == 4
    requires WriteChunks(codec, chunks).Some?
    ensures ReadChunks(codec, WriteChunks(codec, chunks).value) == Some(chunks)
  {
    if chunks != [] {
      ChunkRoundTrip(codec, chunks[0], WriteChunks(codec, chunks[1..]).value);
      ChunksRoundTrip(codec, chunks[1..]);
      assert [chunks[0]] + chunks[1..] == chunks;
    }
  }

  // ---- Scanlines ----

  /** The rows of an image, each behind its filter byte 0. */
  function Scanlines(pixels: seq<Byte>, width: nat, rows: nat): seq<Byte>
    requires |pixels| == rows * width * 3
  {
    if rows == 0 then []
    else
      RowFits(width, rows);
      [0] + pixels[..width * 3] + Scanlines(pixels[width * 3..], width, rows - 1)
  }

  lemma {:induction false} RowFits(width: nat, rows: nat)
    requires rows > 0
    ensures rows * width * 3 - width * 3 == (rows - 1) * width * 3 >= 0
  {
    assert (rows - 1) * width == rows * width - width;
  }

  /** Undoes filter type 0 on `rows` scanlines and joins them. */
  function Unfilter(raw: seq<Byte>, width: nat, rows: nat): Option<seq<Byte>> {
    if rows == 0 then (if raw == [] then Some([]) else None)
    else if |raw| < 1 + width * 3 || raw[0] != 0 then None
    else
      var rest := Unfilter(raw[1 + width * 3..], width, rows - 1);
      if rest.None? then None else Some(raw[1..1 + width * 3] + rest.value)
  }

  lemma {:induction false} UnfilterLine(line: seq<Byte>, tail: seq<Byte>, width: nat, rows: nat)
    requires |line| == width * 3 && rows > 0 && Unfilter(tail, width, rows - 1).Some?
    ensures Unfilter([0] + line + tail, width, rows) == Some(line + Unfilter(tail, width, rows - 1).value)
  {
  }

  lemma {:induction false} ScanlinesRoundTrip(pixels: seq<Byte>, width: nat, rows: nat)
    requires |pixels| == rows * width * 3
    ensures Unfilter(Scanlines(pixels, width, rows), width, rows) == Some(pixels)
  {
    if rows > 0 {
      RowFits(width, rows);
      var n := width * 3;
      ScanlinesRoundTrip(pixels[n..], width, rows - 1);
      UnfilterLine(pixels[..n], Scanlines(pixels[n..], width, rows - 1), width, rows);
      assert pixels[..n] + pixels[n..] == pixels;
    }
  }

  lemma {:induction false} Behind<T>(a: seq<T>, b: seq<T>, n: nat, lo: nat, hi: nat)
    requires n <= lo <= hi <= n + |b| && n == |a|
    ensures (a + b)[lo..hi] == b[lo - n..hi - n]
  {
  }

  lemma {:induction false} FirstScanline(pixels: seq<Byte>, width: nat, rows: nat, n: nat)
    requires |pixels| == rows * width * 3 && rows > 0 && n == width * 3
    ensures n <= |pixels| && |pixels[n..]| == (rows - 1) * width * 3
    ensures Scanlines(pixels, width, rows) == ([0] + pixels[..n]) + Scanlines(pixels[n..], width, rows - 1)
  {
    RowFits(width, rows);
  }

  lemma {:induction false} RowInside(width: nat, rows: nat, row: nat, n: int, from: int, size: int)
    requires row < rows && n == width * 3 && from == row * width * 3 && size == rows * width * 3
    ensures 0 <= from && from + n <= size
    ensures row > 0 ==> from - n == (row - 1) * width * 3 >= 0
  {
    Distributes(row + 1, row, width);
    Distributes(rows, row + 1, width);
    NonNegative(rows - row - 1, width);
    if row > 0 {
      Distributes(row, 1, width);
      NonNegative(row - 1, width);
    }
  }

  /** Each row stands behind a filter byte 0, `width * 3 + 1` bytes after the row before it. */
  lemma {:induction false} ScanlineAt(pixels: seq<Byte>, width: nat, rows: nat, row: nat, at: nat, from: nat)
    requires |pixels| == rows * width * 3 && row < rows
    requires from == row * width * 3 && at == from + row
    ensures from + width * 3 <= |pixels| && at + 1 + width * 3 <= |Scanlines(pixels, width, rows)|
    ensures Scanlines(pixels, width, rows)[at..at + 1 + width * 3] == [0] + pixels[from..from + width * 3]
  {
    var n := width * 3;
    FirstScanline(pixels, width, rows, n);
    var line, rest := [0] + pixels[..n], Scanlines(pixels[n..], width, rows - 1);
    RowInside(width, rows, row, n, from, |pixels|);
    if row == 0 {
      FrontOf(line, rest);
    } else {
      ScanlineAt(pixels[n..], width, rows - 1, row - 1, at - n - 1, from - n);
      NextScanline(pixels, rest, line, n, at, from);
    }
  }

  /** One row further down, both in the pixels and in the stream. */
  lemma {:induction false} NextScanline(pixels: seq<Byte>, rest: seq<Byte>, line: seq<Byte>, n: nat, at: nat, from: nat)
    requires n <= from && from + n <= |pixels| && n + 1 <= at && at <= |rest| && |line| == n + 1
    requires rest[at - n - 1..at] == [0] + pixels[n..][from - n..from]
    ensures (line + rest)[at..at + 1 + n] == [0] + pixels[from..from + n]
  {
    Behind(line, rest, n + 1, at, at + 1 + n);
    Behind(pixels[..n], pixels[n..], n, from, from + n);
    assert pixels[..n] + pixels[n..] == pixels;
  }

  lemma {:induction false} FrontOf<T>(a: seq<T>, b: seq<T>)
    ensures (a + b)[0..|a|] == a
  {
  }

  // ---- The image ----

  datatype Image = Image(width: nat, height: nat, pixels: seq<Byte>)

  /** Width, height, bit depth 8, colour type 2 (RGB), default compression, filter, interlace. */
  function Header(width: nat, height: nat): seq<Byte>
    requires width < WORD && height < WORD
  {
    PackWord(width) + PackWord(height) + [8, 2, 0, 0, 0]
  }

  lemma {:induction false} RowOffsets(width: nat, height: nat, row: nat)
    requires row < height
    ensures row * width * 3 + width * 3 == (row + 1) * width * 3
    ensures height * width * 3 - row * width * 3 == (height - row) * width * 3
    ensures height * width * 3 - (row + 1) * width * 3 == (height - row - 1) * width * 3 >= 0
  {
    Distributes(row + 1, row, width);
    Distributes(height, row, width);
    Distributes(height, row + 1, width);
    NonNegative(height - row - 1, width);
  }

  lemma {:induction false} Distributes(a: int, b: int, w: int)
    ensures (a - b) * w * 3 == a * w * 3 - b * w * 3
  {
  }

  lemma {:induction false} NonNegative(a: int, w: int)
    requires a >= 0 && w >= 0
    ensures a * w * 3 >= 0
  {
  }

  /** One row as the source cuts it out. */
  function Line(pixels: seq<Byte>, width: nat, height: nat, row: nat): seq<Byte>
    requires |pixels| == height * width * 3 && row < height
  {
    RowOffsets(width, height, row);
    [0] + pixels[row * width * 3..(row + 1) * width * 3]
  }

  function Lines(pixels: seq<Byte>, width: nat, height: nat, row: nat): seq<Byte>
    requires |pixels| == height * width * 3 && row <= height
    decreases height - row
  {
    if row == height then [] else Line(pixels, width, height, row) + Lines(pixels, width, height, row + 1)
  }

  lemma {:induction false} LineIsScanline(pixels: seq<Byte>, width: nat, height: nat, row: nat, lo: nat, hi: nat)
    requires |pixels| == height * width * 3 && row < height
    requires lo == row * width * 3 && hi == (row + 1) * width * 3 == lo + width * 3 <= |pixels|
    requires |pixels[lo..]| == (height - row) * width * 3 && |pixels[hi..]| == (height - row - 1) * width * 3
    ensures Scanlines(pixels[lo..], width, height - row) ==
            Line(pixels, width, height, row) + Scanlines(pixels[hi..], width, height - row - 1)
  {
    FirstScanline(pixels[lo..], width, height - row, width * 3);
    CutTwice(pixels, lo, hi, width * 3);
  }

  /** Cutting by row number and peeling off row after row give the same stream. */
  lemma {:induction false} LinesAreScanlines(pixels: seq<Byte>, width: nat, height: nat, row: nat)
    requires |pixels| == height * width * 3 && row <= height
    ensures 0 <= row * width * 3 <= |pixels| && |pixels[row * width * 3..]| == (height - row) * width * 3
    ensures Lines(pixels, width, height, row) == Scanlines(pixels[row * width * 3..], width, height - row)
    decreases height - row
  {
    if row < height {
      RowOffsets(width, height, row);
      LinesAreScanlines(pixels, width, height, row + 1);
      LineIsScanline(pixels, width, height, row, row * width * 3, (row + 1) * width * 3);
    } else {
      Distributes(height, row, width);
    }
  }

  lemma {:induction false} CutTwice<T>(s: seq<T>, lo: nat, hi: nat, n: nat)
    requires lo + n == hi <= |s|
    ensures s[lo..][..n] == s[lo..hi] && s[lo..][n..] == s[hi..]
  {
  }

  /** The join over the rows, as the source's loop over the row numbers builds it. */
  method JoinRows(pixels: seq<Byte>, width: nat, height: nat) returns (raw: seq<Byte>)
    requires |pixels| == height * width * 3
    ensures raw == Scanlines(pixels, width, height)
  {
    raw := [];
    for row := 0 to height
      invariant raw + Lines(pixels, width, height, row) == Lines(pixels, width, height, 0)
    {
      raw := raw + Line(pixels, width, height, row);
    }
    LinesAreScanlines(pixels, width, height, 0);
    assert pixels[0 * width * 3..] == pixels;
  }

  function Encode(codec: Codec, image: Image): Option<seq<Byte>>
    requires |image.pixels| == image.height * image.width * 3
  {
    if image.width >= WORD || image.height >= WORD then None
    else
      var raw := Scanlines(image.pixels, image.width, image.height);
      var body := WriteChunks(codec, [Chunk(IHDR, Header(image.width, image.height)),
                                      Chunk(IDAT, codec.compress(raw)), Chunk(IEND, [])]);
      if body.None? then None else Some(SIGNATURE + body.value)
  }

  function Decode(codec: Codec, png: seq<Byte>): Option<Image> {
    if |png| < 8 || png[..8] != SIGNATURE then None
    else
      var chunks := ReadChunks(codec, png[8..]);
      if chunks.None? || |chunks.value| != 3 then None
      else
        var header, body, end := chunks.value[0], chunks.value[1], chunks.value[2];
        if header.kind != IHDR || body.kind != IDAT || end.kind != IEND || |header.data| != 13
           || header.data[8..] != [8, 2, 0, 0, 0] then None
        else
          var width, height := UnpackWord(header.data[..4]), UnpackWord(header.data[4..8]);
          var pixels := Unfilter(codec.decompress(body.data), width, height);
          if pixels.None? then None else Some(Image(width, height, pixels.value))
  }

  /** The stream byte for byte: the signature, then the three chunks, each as length, type, data and
      checksum of the last two. */
  lemma {:induction false} StreamLayout(codec: Codec, image: Image)
    requires |image.pixels| == image.height * image.width * 3
    requires Encode(codec, image).Some?
    ensures var header := PackWord(image.width) + PackWord(image.height) + [8, 2, 0, 0, 0];
            var body := codec.compress(Scanlines(image.pixels, image.width, image.height));
            && |body| < WORD
            && Encode(codec, image).value ==
               [0x89, 0x50, 0x4E, 0x47, 0x0D, 0x0A, 0x1A, 0x0A]
               + ([0, 0, 0, 13] + [0x49, 0x48, 0x44, 0x52] + header
                  + PackWord(codec.crc([0x49, 0x48, 0x44, 0x52] + header) % WORD))
               + (PackWord(|body|) + [0x49, 0x44, 0x41, 0x54] + body
                  + PackWord(codec.crc([0x49, 0x44, 0x41, 0x54] + body) % WORD))
               + ([0, 0, 0, 0] + [0x49, 0x45, 0x4E, 0x44] + PackWord(codec.crc([0x49, 0x45, 0x4E, 0x44]) % WORD))
  {
    var header := Header(image.width, image.height);
    var body := codec.compress(Scanlines(image.pixels, image.width, image.height));
    var a, b, c := Chunk(IHDR, header), Chunk(IDAT, body), Chunk(IEND, []);
    assert IEND + [] == IEND && [a, b, c][1..] == [b, c] && [b, c][1..] == [c] && [c][1..] == [];
    assert WriteChunks(codec, [c]) == Some(PngChunk(codec, c).value + []);
    assert WriteChunks(codec, [b, c]).value == PngChunk(codec, b).value + WriteChunks(codec, [c]).value;
  }

  /** A reader that checks every length, checksum and filter byte recovers the exact buffer. */
  lemma {:induction false} ImageRoundTrip(codec: Codec, image: Image)
    requires Lossless(codec)
    requires |image.pixels| == image.height * image.width * 3
    requires Encode(codec, image).Some?
    ensures Decode(codec, Encode(codec, image).value) == Some(image)
  {
    var raw := Scanlines(image.pixels, image.width, image.height);
    var header := Header(image.width, image.height);
    var chunks := [Chunk(IHDR, header), Chunk(IDAT, codec.compress(raw)), Chunk(IEND, [])];
    var png := Encode(codec, image).value;
    assert png[..8] == SIGNATURE && png[8..] == WriteChunks(codec, chunks).value;
    ChunksRoundTrip(codec, chunks);
    assert header[..4] == PackWord(image.width) && header[4..8] == PackWord(image.height);
    WordRoundTrip(image.width);
    WordRoundTrip(image.height);
    ScanlinesRoundTrip(image.pixels, image.width, image.height);
  }
}
