/**
 * PNG chunks as RFC 2083 section 3.2 writes them: what the walk takes for a chunk is exactly a
 * written one, and its checks are stated on the values that were written.
 */
module PngBytes {
  import opened Bytes
  import opened ByteWords
  import opened Crc
  import opened FrameWalks
  import opened PngChunks
  import opened Wrappers

  function BE32(n: nat): (s: seq<byte>)
    requires n < 0x1_0000_0000
    ensures |s| == 4
  {
    [n / 0x100_0000, n / 0x1_0000 % 0x100, n / 0x100 % 0x100, n % 0x100]
  }

  lemma Nested(n: nat)
    ensures n / 0x100 / 0x100 == n / 0x1_0000 && n / 0x1_0000 / 0x100 == n / 0x100_0000
  {
  }

  lemma NumberOfBE32(n: nat)
    requires n < 0x1_0000_0000
    ensures U32BE(BE32(n)) == n
  {
    Nested(n);
  }

  lemma BytesOfNumber(n: nat, a: nat, b: nat, c: nat, d: nat)
    requires a < 0x100 && b < 0x100 && c < 0x100 && d < 0x100
    requires n == 0x100_0000 * a + 0x1_0000 * b + 0x100 * c + d
    ensures n / 0x100_0000 == a && n / 0x1_0000 % 0x100 == b && n / 0x100 % 0x100 == c && n % 0x100 == d
  {
    assert n / 0x1_0000 == 0x100 * a + b && n / 0x100 == 0x1_0000 * a + 0x100 * b + c;
  }

  lemma BE32OfNumber(s: seq<byte>)
    requires |s| == 4
    ensures U32BE(s) < 0x1_0000_0000 && BE32(U32BE(s)) == s
  {
    BytesOfNumber(U32BE(s), s[0], s[1], s[2], s[3]);
  }

  // ----- chunks -----

  predicate Fits(kind: seq<byte>, data: seq<byte>, checksum: nat)
  {
    |kind| == 4 && |data| < 0x1_0000_0000 && checksum < 0x1_0000_0000
  }

  function Write(kind: seq<byte>, data: seq<byte>, checksum: nat): (c: seq<byte>)
    requires Fits(kind, data, checksum)
    ensures |c| == 12 + |data|
  {
    BE32(|data|) + kind + data + BE32(checksum)
  }

  /** A written chunk is taken whole, and its kind, its data and its checksum are the written ones. */
  lemma WrittenReads(kind: seq<byte>, data: seq<byte>, checksum: nat)
    requires Fits(kind, data, checksum)
    ensures var c := Write(kind, data, checksum);
            && IsChunk(c) && Kind(c) == kind && Data(c) == data
            && (ChecksumOk(c) <==> checksum == Number(PngCrc(0xffff_ffff, kind + data) ^ 0xffff_ffff))
  {
    hide U32BE, BE32, PngCrc, Number;
    var c := Write(kind, data, checksum);
    NumberOfBE32(|data|);
    NumberOfBE32(checksum);
    assert c[..4] == BE32(|data|) && c[4..8] == kind && c[8..|c| - 4] == data && c[|c| - 4..] == BE32(checksum);
    assert c[|c| - 4..|c|] == c[|c| - 4..];
  }

  /** What the walk takes for a chunk is exactly what is written for some kind, data and checksum. */
  lemma ChunksAreWritten(c: seq<byte>)
    ensures IsChunk(c) <==> exists kind, data, checksum :: Fits(kind, data, checksum) && Write(kind, data, checksum) == c
  {
    hide U32BE, BE32, PngCrc, Number;
    if IsChunk(c) {
      BE32OfNumber(c[..4]);
      BE32OfNumber(c[|c| - 4..]);
      assert Fits(c[4..8], c[8..|c| - 4], U32BE(c[|c| - 4..]));
      assert c == c[..4] + c[4..8] + c[8..|c| - 4] + c[|c| - 4..];
      assert Write(c[4..8], c[8..|c| - 4], U32BE(c[|c| - 4..])) == c;
    }
    if kind, data, checksum :| Fits(kind, data, checksum) && Write(kind, data, checksum) == c {
      WrittenReads(kind, data, checksum);
    }
  }

  // ----- kinds and contents -----

  lemma Names()
    ensures Ihdr() == seq(4, i requires 0 <= i < 4 => "IHDR"[i] as byte)
    ensures Plte() == seq(4, i requires 0 <= i < 4 => "PLTE"[i] as byte)
    ensures Idat() == seq(4, i requires 0 <= i < 4 => "IDAT"[i] as byte)
    ensures Iend() == seq(4, i requires 0 <= i < 4 => "IEND"[i] as byte)
    ensures Signature() == [137, 'P' as byte, 'N' as byte, 'G' as byte, 13, 10, 26, 10]
  {
  }

  /** A kind is four letters, the third upper case; one that begins in upper case is one of the four known. */
  lemma KnownKindExactly(kind: seq<byte>)
    requires |kind| == 4
    ensures IsKnownKind(kind) <==>
              && (forall i :: 0 <= i < 4 ==> 'A' <= kind[i] as char <= 'Z' || 'a' <= kind[i] as char <= 'z')
              && 'A' <= kind[2] as char <= 'Z'
              && ('A' <= kind[0] as char <= 'Z' ==> kind in [Ihdr(), Plte(), Idat(), Iend()])
  {
    hide Ihdr, Plte, Idat, Iend;
  }

  /** RFC 2083 section 4.1.1: the allowed pairs of colour type and bit depth. */
  const COLOURS: seq<(nat, nat)> := [
    (0, 1), (0, 2), (0, 4), (0, 8), (0, 16), (2, 8), (2, 16), (3, 1), (3, 2), (3, 4), (3, 8),
    (4, 8), (4, 16), (6, 8), (6, 16)]

  lemma ColourListed(colour: nat, depth: nat)
    ensures (colour, depth) in COLOURS <==>
              || (colour == 0 && depth in {1, 2, 4, 8, 16}) || (colour == 2 && depth in {8, 16})
              || (colour == 3 && depth in {1, 2, 4, 8}) || (colour == 4 && depth in {8, 16}) || (colour == 6 && depth in {8, 16})
  {
    assert (colour, depth) in COLOURS <==> exists i :: 0 <= i < 15 && COLOURS[i] == (colour, depth);
    assert COLOURS[0] == (0, 1) && COLOURS[1] == (0, 2) && COLOURS[2] == (0, 4) && COLOURS[3] == (0, 8) && COLOURS[4] == (0, 16);
    assert COLOURS[5] == (2, 8) && COLOURS[6] == (2, 16);
    assert COLOURS[7] == (3, 1) && COLOURS[8] == (3, 2) && COLOURS[9] == (3, 4) && COLOURS[10] == (3, 8);
    assert COLOURS[11] == (4, 8) && COLOURS[12] == (4, 16) && COLOURS[13] == (6, 8) && COLOURS[14] == (6, 16);
  }

  /** A header is a positive width and height, a listed pair, the two methods zero, and one of two interlace methods. */
  lemma HeaderExactly(width: nat, height: nat, depth: byte, colour: byte, compression: byte, filter: byte, interlace: byte)
    requires width < 0x1_0000_0000 && height < 0x1_0000_0000
    ensures IsValidIhdr(BE32(width) + BE32(height) + [depth, colour, compression, filter, interlace]) <==>
              && width > 0 && height > 0 && (colour as int, depth as int) in COLOURS
              && compression == 0 && filter == 0 && interlace <= 1
  {
    hide BE32, U32BE;
    NumberOfBE32(width);
    NumberOfBE32(height);
    var data := BE32(width) + BE32(height) + [depth, colour, compression, filter, interlace];
    assert data[..4] == BE32(width) && data[4..8] == BE32(height);
    assert data[8] == depth && data[9] == colour && data[10] == compression && data[11] == filter && data[12] == interlace;
    ColourListed(colour, depth);
  }

  /** Every header is written so. */
  lemma HeadersHaveFields(data: seq<byte>)
    requires IsValidIhdr(data)
    ensures |data| == 13 && U32BE(data[..4]) < 0x1_0000_0000 && U32BE(data[4..8]) < 0x1_0000_0000
    ensures data == BE32(U32BE(data[..4])) + BE32(U32BE(data[4..8])) + data[8..13]
  {
    hide BE32, U32BE;
    BE32OfNumber(data[..4]);
    BE32OfNumber(data[4..8]);
  }

  /** A palette of n colours: at most 256, for a colour image of any kind, and at most what an index can tell apart. */
  lemma PaletteExactly(data: seq<byte>, colour: byte, depth: byte)
    requires (colour as int, depth as int) in COLOURS
    ensures IsValidPlte(data, colour, depth) <==>
              && |data| % 3 == 0 && 1 <= |data| / 3 <= 256 && colour in [2, 3, 6]
              && (colour == 3 ==> |data| / 3 <= match depth case 1 => 2 case 2 => 4 case 4 => 16 case _ => 256)
  {
    hide Pow2;
    Pow2Values();
    ColourListed(colour, depth);
  }
}
