// zlibStoreUncompressed and putBE32 of gendb/ProvisioningClient.cpp, against readers written from
// RFC 1950 (the zlib format) and RFC 1951 (stored blocks).

module Zlib {
  import opened Bytes

  const MAX_BLOCK := 65535
  const ADLER_BASE := 65521

  /** putBE32, on a value below 2^32. */
  function BE32(v: nat): (r: seq<Byte>)
    ensures |r| == 4
  {
    [v / 0x100_0000 % 256, v / 0x1_0000 % 256, v / 0x100 % 256, v % 256]
  }

  function ReadBE32(s: seq<Byte>): (r: nat)
    requires |s| == 4
    ensures r < 0x1_0000_0000
  {
    ((s[0] as int * 256 + s[1]) * 256 + s[2]) * 256 + s[3]
  }

  lemma BE32RoundTrip(v: nat)
    ensures ReadBE32(BE32(v)) == v % 0x1_0000_0000
  {
    TopByte(v, 0x100);
    TopByte(v, 0x1_0000);
    TopByte(v, 0x100_0000);
  }

  lemma TopByte(v: nat, m: nat)
    requires m in {0x100, 0x1_0000, 0x100_0000}
    ensures v % (256 * m) == v / m % 256 * m + v % m
  {
    if m == 0x100 {
      assert v / 0x100 / 256 == v / 0x1_0000;
    } else if m == 0x1_0000 {
      assert v / 0x1_0000 / 256 == v / 0x100_0000;
    } else {
      assert v / 0x100_0000 / 256 == v / 0x1_0000_0000;
    }
  }

  // The writer.

  function BlockHeader(n: nat, last: bool): seq<Byte>
    requires n <= MAX_BLOCK
  {
    [if last then 1 else 0, n % 256, n / 256, (0xFFFF - n) % 256, (0xFFFF - n) / 256]
  }

  function Blocks(data: seq<Byte>): seq<Byte> {
    if |data| <= MAX_BLOCK then BlockHeader(|data|, true) + data
    else BlockHeader(MAX_BLOCK, false) + data[..MAX_BLOCK] + Blocks(data[MAX_BLOCK..])
  }

  function Stream(data: seq<Byte>): seq<Byte> {
    [0x78, 0x01] + Blocks(data) + BE32(Adler32(data))
  }

  // Section 8.2 of RFC 1950: s1 is one plus the sum of all bytes, s2 the sum of all s1 values, and
  // both are taken modulo 65521.

  function S1(data: seq<Byte>): nat {
    if data == [] then 1 else S1(data[..|data| - 1]) + data[|data| - 1]
  }

  function S2(data: seq<Byte>): nat {
    if data == [] then 0 else S2(data[..|data| - 1]) + S1(data)
  }

  function Adler32(data: seq<Byte>): (r: nat)
    ensures r < 0x1_0000_0000
  {
    S2(data) % 65521 * 0x1_0000 + S1(data) % 65521
  }

  /** The do-while loop of zlibStoreUncompressed, then the checksum loop. */
  method ZlibStoreUncompressed(data: seq<Byte>) returns (out: seq<Byte>)
    ensures out == Stream(data)
  {
    out := [0x78, 0x01];
    var offset := 0;
    var more := true;
    while more
      invariant 0 <= offset <= |data|
      invariant [0x78, 0x01] + Blocks(data) == if more then out + Blocks(data[offset..]) else out
      decreases |data| - offset, more
    {
      hide Blocks, BlockHeader;
      var chunkLen := Min(MAX_BLOCK, |data| - offset);
      var isLast := offset + chunkLen >= |data|;
      ghost var before := out;
      BlocksStep(data[offset..]);
      var header := Header(chunkLen, isLast);
      out := out + header;
      out := out + data[offset..offset + chunkLen];
      offset := offset + chunkLen;
      more := offset < |data|;
      NextBlock(data, offset - chunkLen, chunkLen, before);
    }
    var trailer := Adler(data);
    out := out + BE32(trailer);
  }

  /** The five header bytes, with the uint16_t complement of the length. */
  method Header(chunkLen: nat, isLast: bool) returns (out: seq<Byte>)
    requires chunkLen <= MAX_BLOCK
    ensures out == BlockHeader(chunkLen, isLast)
  {
    out := [if isLast then 1 else 0];
    var len := chunkLen % 0x1_0000;
    var nlen := 0xFFFF - len;
    out := out + [len % 256, len / 256, nlen % 256, nlen / 256];
  }

  lemma BlocksStep(rest: seq<Byte>)
    ensures |rest| <= MAX_BLOCK ==> Blocks(rest) == BlockHeader(|rest|, true) + rest
    ensures |rest| > MAX_BLOCK ==>
              Blocks(rest) == BlockHeader(MAX_BLOCK, false) + rest[..MAX_BLOCK] + Blocks(rest[MAX_BLOCK..])
  {
  }

  lemma NextBlock(data: seq<Byte>, offset: nat, n: nat, before: seq<Byte>)
    requires offset <= |data| && n == Min(MAX_BLOCK, |data| - offset)
    ensures var out := before + BlockHeader(n, offset + n >= |data|) + data[offset..offset + n];
            before + Blocks(data[offset..]) == if offset + n < |data| then out + Blocks(data[offset + n..]) else out
  {
    hide Blocks, BlockHeader;
    var rest := data[offset..];
    BlocksStep(rest);
    assert data[offset..offset + n] == rest[..n];
    if offset + n < |data| {
      assert data[offset + n..] == rest[n..];
    } else {
      assert rest[..n] == rest;
    }
  }

  method Adler(data: seq<Byte>) returns (r: nat)
    ensures r == Adler32(data)
  {
    var a, b := 1, 0;
    for i := 0 to |data|
      invariant a == S1(data[..i]) % ADLER_BASE && b == S2(data[..i]) % ADLER_BASE
    {
      assert data[..i + 1][..i] == data[..i];
      SumMod(S1(data[..i]), data[i]);
      SumMod(S2(data[..i]), S1(data[..i + 1]));
      a := (a + data[i]) % ADLER_BASE;
      SumMod(b, S1(data[..i + 1]));
      b := (b + a) % ADLER_BASE;
    }
    assert data[..|data|] == data;
    r := b * 0x1_0000 + a;
  }

  lemma SumMod(x: int, y: int)
    ensures (x % ADLER_BASE + y) % ADLER_BASE == (x + y) % ADLER_BASE
    ensures (x + y % ADLER_BASE) % ADLER_BASE == (x + y) % ADLER_BASE
  {
  }

  // The reader.

  /** Section 3.2.4 of RFC 1951, for a stream of stored blocks: the data and what follows the final
      block. */
  function ReadBlocks(s: seq<Byte>): Option<(seq<Byte>, seq<Byte>)> {
    if |s| < 5 then None else
    var final, kind := s[0] % 2 == 1, s[0] / 2 % 4;
    var len, nlen := s[1] as int + s[2] as int * 256, s[3] as int + s[4] as int * 256;
    if kind != 0 || len + nlen != 0xFFFF || |s| < 5 + len then None
    else if final then Some((s[5..5 + len], s[5 + len..]))
    else match ReadBlocks(s[5 + len..])
      case None => None
      case Some((data, rest)) => Some((s[5..5 + len] + data, rest))
  }

  /** Section 2.2 of RFC 1950: method 8, a window of at most 32K, a header divisible by 31, no preset
      dictionary, stored blocks, and the Adler-32 of the data as the last four bytes. */
  function ReadStream(s: seq<Byte>): Option<seq<Byte>> {
    if |s| < 2 then None
    else if s[0] % 16 != 8 || s[0] / 16 > 7 || (s[0] as int * 256 + s[1]) % 31 != 0 || s[1] / 32 % 2 != 0 then None
    else match ReadBlocks(s[2..])
      case None => None
      case Some((data, trailer)) =>
        if |trailer| == 4 && ReadBE32(trailer) == Adler32(data) then Some(data) else None
  }

  /** Reading the blocks stops at the last one, the only final one, and returns the data. */
  lemma {:induction false} BlocksReadBack(data: seq<Byte>, rest: seq<Byte>)
    ensures ReadBlocks(Blocks(data) + rest) == Some((data, rest))
  {
    hide Blocks, BlockHeader, ReadBlocks;
    BlocksStep(data);
    if |data| <= MAX_BLOCK {
      OneBlock(data, true, rest);
    } else {
      var tail := Blocks(data[MAX_BLOCK..]) + rest;
      OneBlock(data[..MAX_BLOCK], false, tail);
      assert Blocks(data) + rest == BlockHeader(MAX_BLOCK, false) + data[..MAX_BLOCK] + tail;
      BlocksReadBack(data[MAX_BLOCK..], rest);
      assert data[..MAX_BLOCK] + data[MAX_BLOCK..] == data;
    }
  }

  lemma OneBlock(chunk: seq<Byte>, last: bool, rest: seq<Byte>)
    requires |chunk| <= MAX_BLOCK
    ensures var s := BlockHeader(|chunk|, last) + chunk + rest;
            ReadBlocks(s) == if last then Some((chunk, rest)) else
                             match ReadBlocks(rest) case None => None case Some((d, r)) => Some((chunk + d, r))
  {
    var s := BlockHeader(|chunk|, last) + chunk + rest;
    assert s[5..5 + |chunk|] == chunk && s[5 + |chunk|..] == rest;
  }

  /** For every byte sequence the emitted stream is a valid zlib stream of that sequence. */
  lemma StreamReadsBack(data: seq<Byte>)
    ensures ReadStream(Stream(data)) == Some(data)
  {
    hide Blocks, ReadBlocks, BE32, ReadBE32, Adler32;
    var trailer := BE32(Adler32(data));
    assert Stream(data)[2..] == Blocks(data) + trailer;
    BlocksReadBack(data, trailer);
    BE32RoundTrip(Adler32(data));
  }

  lemma {:induction false} BlocksLength(data: seq<Byte>)
    ensures |Blocks(data)| == |data| + 5 * (if data == [] then 1 else (|data| + MAX_BLOCK - 1) / MAX_BLOCK)
  {
    if |data| > MAX_BLOCK {
      BlocksLength(data[MAX_BLOCK..]);
    }
  }

  /** The size of the stream: one 5-byte header for every started 65535 bytes, at least one. */
  lemma StreamLength(data: seq<Byte>)
    ensures |Stream(data)| == |data| + 6 + 5 * (if data == [] then 1 else (|data| + 65534) / 65535)
  {
    BlocksLength(data);
  }
}
