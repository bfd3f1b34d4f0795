// The PNG writer of gendb/ProvisioningClient.cpp (writePngChunk, writeQrPng) against a reader written
// from RFC 2083: chunk layout and CRC (section 3), grayscale raster with filter 0 (sections 2.3, 6.2).

module Png {
  import opened Bytes
  import opened Zlib
  import opened Crc32

  const QUIET := 4
  const SIGNATURE: seq<Byte> := [0x89, 0x50, 0x4E, 0x47, 0x0D, 0x0A, 0x1A, 0x0A]
  const IHDR: seq<Byte> := [0x49, 0x48, 0x44, 0x52]
  const IDAT: seq<Byte> := [0x49, 0x44, 0x41, 0x54]
  const IEND: seq<Byte> := [0x49, 0x45, 0x4E, 0x44]
  const WORD32 := 0x1_0000_0000

  // Chunks.

  function CrcNumber(data: seq<Byte>): (r: nat)
    ensures r < WORD32
  {
    Crc(data) as int
  }

  function ChunkBytes(kind: seq<Byte>, data: seq<Byte>): seq<Byte> {
    BE32(|data| % WORD32) + (kind + data) + BE32(CrcNumber(kind + data))
  }

  /** writePngChunk */
  method WritePngChunk(out: seq<Byte>, kind: seq<Byte>, data: seq<Byte>, crc: Crc32Computer) returns (r: seq<Byte>)
    requires crc.Valid()
    modifies crc, crc.table
    ensures crc.Valid() && r == out + ChunkBytes(kind, data)
  {
    var length := BE32(|data| % WORD32);
    var typeAndData := kind + data;
    var sum := crc.Crc32Of(typeAndData);
    var check := BE32(sum as int);
    r := out + length + typeAndData + check;
    assert r == out + (length + typeAndData + check);
  }

  datatype Chunk = Chunk(kind: seq<Byte>, data: seq<Byte>)

  /** One chunk and what follows it. */
  function ReadChunk(s: seq<Byte>): (r: Option<(Chunk, seq<Byte>)>)
    ensures r.Some? ==> |r.value.1| < |s|
  {
    if |s| < 12 then None else
    var n := ReadBE32(s[..4]);
    if |s| < 12 + n || ReadBE32(s[8 + n..12 + n]) != CrcNumber(s[4..8 + n]) then None
    else Some((Chunk(s[4..8], s[8..8 + n]), s[12 + n..]))
  }

  lemma WordRoundTrip(v: nat)
    requires v < WORD32
    ensures ReadBE32(BE32(v)) == v
  {
    BE32RoundTrip(v);
  }

  /** A chunk reads back exactly when its length fits the 32-bit length field. */
  lemma ChunkReadsBackIff(kind: seq<Byte>, data: seq<Byte>, rest: seq<Byte>)
    requires |kind| == 4
    ensures ReadChunk(ChunkBytes(kind, data) + rest) == Some((Chunk(kind, data), rest)) <==> |data| < WORD32
  {
    hide BE32, ReadBE32, Crc, CrcNumber;
    var s := ChunkBytes(kind, data) + rest;
    var n := |data| % WORD32;
    assert s[..4] == BE32(n);
    WordRoundTrip(n);
    if |data| < WORD32 {
      var sum := CrcNumber(kind + data);
      WordRoundTrip(sum);
      assert s[4..8 + n] == kind + data;
      assert s[8 + n..12 + n] == BE32(sum);
      assert s[4..8] == kind && s[8..8 + n] == data && s[12 + n..] == rest;
    }
  }

  // The raster.

  /** What libqrencode hands over: a square of modules, the low bit of each saying dark. */
  datatype QrCode = QrCode(width: nat, data: seq<Byte>)

  predicate Valid(q: QrCode) { |q.data| == q.width * q.width }

  lemma ModuleInRange(q: QrCode, qx: nat, qy: nat)
    requires Valid(q) && qx < q.width && qy < q.width
    ensures qy * q.width + qx < |q.data|
  {
    assert qy * q.width <= (q.width - 1) * q.width;
  }

  predicate DarkModule(q: QrCode, qx: int, qy: int)
    requires Valid(q)
  {
    && 0 <= qx < q.width && 0 <= qy < q.width
    && (ModuleInRange(q, qx, qy); q.data[qy * q.width + qx] % 2 == 1)
  }

  /** Pixel (x, y) lies in a dark module, behind the quiet zone. */
  predicate DarkPixel(q: QrCode, scale: nat, x: nat, y: nat)
    requires Valid(q) && scale > 0
  {
    DarkModule(q, x / scale - QUIET, y / scale - QUIET)
  }

  /** Bit k of a byte, the most significant being bit 0. */
  predicate Bit(b: Byte, k: nat)
    requires k < 8
  {
    WordBit(b as bv8, k)
  }

  predicate WordBit(b: bv8, k: nat)
    requires k < 8
  {
    b & ((0x80 as bv8) >> k) != 0
  }

  function ClearBit(b: bv8, k: nat): bv8
    requires k < 8
  {
    b & !((0x80 as bv8) >> k)
  }

  lemma ClearsOneBit(b: bv8, i: nat, j: nat)
    requires i < 8 && j < 8
    ensures WordBit(ClearBit(b, i), j) <==> i != j && WordBit(b, j)
  {
  }

  lemma AllBitsSet(k: nat)
    requires k < 8
    ensures WordBit(0xFF, k)
  {
  }

  lemma BitOfWord(b: bv8, k: nat)
    requires k < 8
    ensures Bit(b as int, k) <==> WordBit(b, k)
  {
    hide WordBit;
    WordAsByte(b);
  }

  lemma WordAsByte(b: bv8)
    ensures (b as int) as bv8 == b
  {
  }

  /** A packed row: bit x is set (white) unless pixel (x, y) is dark; the bits past the end are set. */
  ghost predicate PackedRow(row: seq<Byte>, q: QrCode, scale: nat, size: nat, y: nat)
    requires Valid(q) && scale > 0
  {
    && |row| == (size + 7) / 8
    && forall x | 0 <= x < 8 * |row| :: Bit(row[x / 8], x % 8) <==> !(x < size && DarkPixel(q, scale, x, y))
  }

  method PackRow(q: QrCode, scale: nat, size: nat, y: nat) returns (bytes: seq<Byte>)
    requires Valid(q) && scale > 0
    ensures PackedRow(bytes, q, scale, size, y)
  {
    hide WordBit, ClearBit, DarkModule;
    var row := new bv8[(size + 7) / 8](_ => 0xFF);
    forall k: nat | k < 8 ensures WordBit(0xFF, k) { AllBitsSet(k); }
    for x := 0 to size
      invariant forall j | 0 <= j < 8 * row.Length ::
                  WordBit(row[j / 8], j % 8) <==> !(j < x && DarkPixel(q, scale, j, y))
    {
      if DarkPixel(q, scale, x, y) {
        forall j: nat | j < 8 ensures WordBit(ClearBit(row[x / 8], x % 8), j) <==> x % 8 != j && WordBit(row[x / 8], j) {
          ClearsOneBit(row[x / 8], x % 8, j);
        }
        row[x / 8] := ClearBit(row[x / 8], x % 8);
      }
    }
    bytes := seq(row.Length, i requires 0 <= i < row.Length reads row => row[i] as int);
    hide Bit;
    forall x | 0 <= x < 8 * |bytes|
      ensures Bit(bytes[x / 8], x % 8) <==> WordBit(row[x / 8], x % 8)
    {
      BitOfWord(row[x / 8], x % 8);
    }
  }

  // The file.

  /** raw: every row behind its filter byte 0. */
  function Scanlines(rows: seq<seq<Byte>>): seq<Byte> {
    if rows == [] then [] else Scanlines(rows[..|rows| - 1]) + [0] + rows[|rows| - 1]
  }

  function Header(size: nat): seq<Byte> { BE32(size) + BE32(size) + [1, 0, 0, 0, 0] }

  function PngFile(size: nat, rows: seq<seq<Byte>>): seq<Byte> {
    SIGNATURE + ChunkBytes(IHDR, Header(size)) + ChunkBytes(IDAT, Stream(Scanlines(rows))) + ChunkBytes(IEND, [])
  }

  datatype Image = Image(width: nat, height: nat, rows: seq<seq<Byte>>)

  /** A clear bit is a black pixel. */
  predicate Black(im: Image, x: nat, y: nat)
    requires y < |im.rows| && x / 8 < |im.rows[y]|
  {
    !Bit(im.rows[y][x / 8], x % 8)
  }

  // The reader spells the signature and the chunk types out: "IHDR", "IDAT" and "IEND" in ASCII.

  /** All chunks up to IEND, which must end the file. */
  function ReadChunks(s: seq<Byte>): Option<seq<Chunk>>
    decreases |s|
  {
    match ReadChunk(s)
    case None => None
    case Some((chunk, rest)) =>
      if chunk.kind == [0x49, 0x45, 0x4E, 0x44] then (if rest == [] then Some([chunk]) else None)
      else match ReadChunks(rest)
        case None => None
        case Some(chunks) => Some([chunk] + chunks)
  }

  /** The concatenated IDAT data. */
  function ImageData(chunks: seq<Chunk>): seq<Byte> {
    if chunks == [] then []
    else (if chunks[0].kind == [0x49, 0x44, 0x41, 0x54] then chunks[0].data else []) + ImageData(chunks[1..])
  }

  /** height rows of n bytes, each behind a filter byte 0, read from the last one back. */
  function ReadRows(raw: seq<Byte>, height: nat, n: nat): Option<seq<seq<Byte>>> {
    if height == 0 then (if raw == [] then Some([]) else None)
    else if |raw| < n + 1 || raw[|raw| - n - 1] != 0 then None
    else match ReadRows(raw[..|raw| - n - 1], height - 1, n)
      case None => None
      case Some(rows) => Some(rows + [raw[|raw| - n..]])
  }

  /** A 1-bit grayscale image without interlacing. */
  function ReadPng(s: seq<Byte>): Option<Image> {
    if |s| < 8 || s[..8] != [0x89, 0x50, 0x4E, 0x47, 0x0D, 0x0A, 0x1A, 0x0A] then None
    else match ReadChunks(s[8..])
      case None => None
      case Some(chunks) =>
        var first := chunks[0];
        if first.kind != [0x49, 0x48, 0x44, 0x52] || |first.data| != 13 || first.data[8..] != [1, 0, 0, 0, 0] then None else
        var width, height := ReadBE32(first.data[..4]), ReadBE32(first.data[4..8]);
        match ReadStream(ImageData(chunks))
        case None => None
        case Some(raw) =>
          match ReadRows(raw, height, (width + 7) / 8)
          case None => None
          case Some(rows) => Some(Image(width, height, rows))
  }

  lemma {:induction false} RowsReadBack(rows: seq<seq<Byte>>, n: nat)
    requires forall i | 0 <= i < |rows| :: |rows[i]| == n
    ensures ReadRows(Scanlines(rows), |rows|, n) == Some(rows)
  {
    if rows != [] {
      var front, last := rows[..|rows| - 1], rows[|rows| - 1];
      var raw := Scanlines(rows);
      assert raw[..|raw| - n - 1] == Scanlines(front) && raw[|raw| - n..] == last;
      RowsReadBack(front, n);
      assert front + [last] == rows;
    }
  }

  lemma KindsDiffer()
    ensures IHDR != IEND && IDAT != IEND && IHDR != IDAT
  {
    assert IHDR[1] != IEND[1] && IDAT[1] != IEND[1] && IHDR[1] != IDAT[1];
  }

  lemma ChunksReadBack(size: nat, idat: seq<Byte>)
    requires |idat| < WORD32
    ensures ReadChunks(ChunkBytes(IHDR, Header(size)) + ChunkBytes(IDAT, idat) + ChunkBytes(IEND, []))
            == Some([Chunk(IHDR, Header(size)), Chunk(IDAT, idat), Chunk(IEND, [])])
  {
    hide ReadChunk, ChunkBytes, BE32;
    KindsDiffer();
    var c1, c2, c3 := ChunkBytes(IHDR, Header(size)), ChunkBytes(IDAT, idat), ChunkBytes(IEND, []);
    ChunkReadsBackIff(IHDR, Header(size), c2 + c3);
    ChunkReadsBackIff(IDAT, idat, c3);
    ChunkReadsBackIff(IEND, [], []);
    assert c1 + c2 + c3 == c1 + (c2 + c3) && c3 + [] == c3;
    assert ReadChunks(c3) == Some([Chunk(IEND, [])]);
    assert ReadChunks(c2 + c3) == Some([Chunk(IDAT, idat)] + [Chunk(IEND, [])]);
    var a, b, c := Chunk(IHDR, Header(size)), Chunk(IDAT, idat), Chunk(IEND, []);
    assert ReadChunks(c1 + (c2 + c3)) == Some([a] + ([b] + [c]));
    assert [a] + ([b] + [c]) == [a, b, c];
  }

  /** The file reads back as the rows that were packed into it. */
  lemma FileReadsBack(size: nat, rows: seq<seq<Byte>>)
    requires size < WORD32 && |rows| == size && |Stream(Scanlines(rows))| < WORD32
    requires forall i | 0 <= i < size :: |rows[i]| == (size + 7) / 8
    ensures ReadPng(PngFile(size, rows)) == Some(Image(size, size, rows))
  {
    hide ReadChunks, ChunkBytes, BE32, ReadBE32, ReadStream, Stream, ReadRows, Scanlines;
    var idat := Stream(Scanlines(rows));
    var s := PngFile(size, rows);
    var tail := ChunkBytes(IHDR, Header(size)) + ChunkBytes(IDAT, idat) + ChunkBytes(IEND, []);
    assert s == SIGNATURE + tail;
    assert s[..8] == SIGNATURE && s[8..] == tail;
    ChunksReadBack(size, idat);
    var chunks := [Chunk(IHDR, Header(size)), Chunk(IDAT, idat), Chunk(IEND, [])];
    WordRoundTrip(size);
    var h := Header(size);
    assert h[..4] == BE32(size) && h[4..8] == BE32(size) && h[8..] == [1, 0, 0, 0, 0];
    OnlyImageChunk(Header(size), idat);
    StreamReadsBack(Scanlines(rows));
    RowsReadBack(rows, (size + 7) / 8);
  }

  lemma OnlyImageChunk(h: seq<Byte>, idat: seq<Byte>)
    ensures ImageData([Chunk(IHDR, h), Chunk(IDAT, idat), Chunk(IEND, [])]) == idat
  {
    KindsDiffer();
    var chunks := [Chunk(IHDR, h), Chunk(IDAT, idat), Chunk(IEND, [])];
    assert chunks[1..] == [Chunk(IDAT, idat), Chunk(IEND, [])];
    assert chunks[1..][1..] == [Chunk(IEND, [])];
    assert ImageData(chunks[1..][1..]) == [];
  }

  /** The length of zlib's stored form of n bytes. */
  function StoredSize(n: nat): nat {
    n + 6 + 5 * (if n == 0 then 1 else (n + MAX_BLOCK - 1) / MAX_BLOCK)
  }

  lemma {:induction false} ScanlinesLength(rows: seq<seq<Byte>>, n: nat)
    requires forall i | 0 <= i < |rows| :: |rows[i]| == n
    ensures |Scanlines(rows)| == |rows| * (1 + n)
  {
    if rows != [] {
      ScanlinesLength(rows[..|rows| - 1], n);
      assert |rows| * (1 + n) == (|rows| - 1) * (1 + n) + (1 + n);
    }
  }

  /** The loop over the rows of writeQrPng. */
  method PackRows(q: QrCode, scale: nat, size: nat) returns (raw: seq<Byte>, ghost rows: seq<seq<Byte>>)
    requires Valid(q) && scale > 0
    ensures |rows| == size && raw == Scanlines(rows)
    ensures forall y | 0 <= y < size :: PackedRow(rows[y], q, scale, size, y)
  {
    hide PackedRow;
    raw, rows := [], [];
    for y := 0 to size
      invariant |rows| == y && raw == Scanlines(rows)
      invariant forall j | 0 <= j < y :: PackedRow(rows[j], q, scale, size, j)
    {
      raw := raw + [0];
      var row := PackRow(q, scale, size, y);
      raw := raw + row;
      assert (rows + [row])[..y] == rows;
      rows := rows + [row];
    }
  }

  /** The three chunks of writeQrPng. */
  method WriteChunks(size: nat, raw: seq<Byte>, ghost rows: seq<seq<Byte>>, crc: Crc32Computer)
    returns (png: seq<Byte>)
    requires raw == Scanlines(rows) && crc.Valid()
    modifies crc, crc.table
    ensures crc.Valid() && png == PngFile(size, rows)
  {
    hide Scanlines, Stream, ChunkBytes, BE32;
    png := SIGNATURE;
    var ihdr := BE32(size);
    ihdr := ihdr + BE32(size);
    ihdr := ihdr + [1];
    ihdr := ihdr + [0];
    ihdr := ihdr + [0];
    ihdr := ihdr + [0];
    ihdr := ihdr + [0];
    assert ihdr == Header(size);
    png := WritePngChunk(png, IHDR, ihdr, crc);
    var idat := ZlibStoreUncompressed(raw);
    png := WritePngChunk(png, IDAT, idat, crc);
    png := WritePngChunk(png, IEND, [], crc);
  }

  /** writeQrPng up to the file write. The sizes must fit int and the chunk length 32 bits; decoding
      the bytes gives a square in which exactly the dark modules are black. */
  method WriteQrPng(q: QrCode, scale: nat, crc: Crc32Computer) returns (png: seq<Byte>)
    requires Valid(q) && scale > 0 && crc.Valid()
    requires var size := (q.width + 8) * scale;
             size < 0x8000_0000 && StoredSize(size * (1 + (size + 7) / 8)) < WORD32
    modifies crc, crc.table
    ensures crc.Valid()
    ensures ReadPng(png).Some?
    ensures var im, size := ReadPng(png).value, (q.width + 8) * scale;
            && im.width == im.height == |im.rows| == size
            && forall x: nat, y: nat | x < size && y < size ::
                 x / 8 < |im.rows[y]| && (Black(im, x, y) <==> DarkModule(q, x / scale - 4, y / scale - 4))
  {
    hide ReadPng, PngFile, DarkModule, Bit, Stream, Scanlines;
    var size := (q.width + QUIET * 2) * scale;
    var raw, rows := PackRows(q, scale, size);
    png := WriteChunks(size, raw, rows, crc);
    ScanlinesLength(rows, (size + 7) / 8);
    StreamLength(raw);
    FileReadsBack(size, rows);
  }
}
