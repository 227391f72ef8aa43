/**
 * Ogg pages as RFC 3533 section 6 writes them: the pages the walk takes are exactly the written
 * ones, and every field it looks at is the one that was written.
 */
module OggBytes {
  import opened Bytes
  import opened ByteWords
  import opened Crc
  import opened OggLacing
  import opened OggOpus
  import opened OggPages
  import opened OpusTags
  import opened Wrappers

  datatype Header = Header(
    continued: bool, begins: bool, ends: bool, granule: int, serial: nat, sequence: nat, checksum: nat)

  predicate Fits(h: Header, lacing: seq<byte>, body: seq<byte>)
  {
    && -0x8000_0000_0000_0000 <= h.granule < 0x8000_0000_0000_0000
    && h.serial < 0x1_0000_0000 && h.sequence < 0x1_0000_0000 && h.checksum < 0x1_0000_0000
    && |lacing| < 256 && Total(lacing) == |body|
  }

  function Flags(h: Header): byte
  {
    (if h.continued then 1 else 0) + (if h.begins then 2 else 0) + (if h.ends then 4 else 0)
  }

  /** The granule position is written in two's complement, low word first. */
  function Front(h: Header): (s: seq<byte>)
    requires h.serial < 0x1_0000_0000 && h.sequence < 0x1_0000_0000
    ensures |s| == 22
  {
    ['O' as byte, 'g' as byte, 'g' as byte, 'S' as byte, 0, Flags(h)]
    + EncodeU32LE(h.granule % 0x1_0000_0000) + EncodeU32LE(h.granule / 0x1_0000_0000 % 0x1_0000_0000)
    + EncodeU32LE(h.serial) + EncodeU32LE(h.sequence)
  }

  function Write(h: Header, lacing: seq<byte>, body: seq<byte>): (s: seq<byte>)
    requires Fits(h, lacing, body)
    ensures |s| == 27 + |lacing| + |body|
  {
    Front(h) + EncodeU32LE(h.checksum) + [|lacing|] + lacing + body
  }

  lemma WordAt(s: seq<byte>, at: nat, n: nat)
    requires at + 4 <= |s| && n < 0x1_0000_0000 && s[at..at + 4] == EncodeU32LE(n)
    ensures U32LE(s, at) == n
  {
    hide EncodeU32LE;
    NumberOfBytes(n);
    var w := s[at..at + 4];
    assert w[0] == s[at] && w[1] == s[at + 1] && w[2] == s[at + 2] && w[3] == s[at + 3];
  }

  lemma WordOf(s: seq<byte>, at: nat)
    requires at + 4 <= |s|
    ensures EncodeU32LE(U32LE(s, at)) == s[at..at + 4]
  {
    hide EncodeU32LE;
    BytesOfU32LE(s[at..at + 4]);
    var w := s[at..at + 4];
    assert w[0] == s[at] && w[1] == s[at + 1] && w[2] == s[at + 2] && w[3] == s[at + 3];
  }

  lemma FrontWords(h: Header)
    requires h.serial < 0x1_0000_0000 && h.sequence < 0x1_0000_0000
    ensures var s := Front(h);
            && s[..4] == OggCapture() && s[4] == 0 && s[5] == Flags(h)
            && s[6..10] == EncodeU32LE(h.granule % 0x1_0000_0000)
            && s[10..14] == EncodeU32LE(h.granule / 0x1_0000_0000 % 0x1_0000_0000)
            && s[14..18] == EncodeU32LE(h.serial) && s[18..22] == EncodeU32LE(h.sequence)
  {
    hide EncodeU32LE;
  }

  lemma Halves(granule: int)
    requires -0x8000_0000_0000_0000 <= granule < 0x8000_0000_0000_0000
    ensures var low, high := granule % 0x1_0000_0000, granule / 0x1_0000_0000 % 0x1_0000_0000;
            granule == low + 0x1_0000_0000 * if high < 0x8000_0000 then high else high - 0x1_0000_0000
  {
    var q := granule / 0x1_0000_0000;
    assert -0x8000_0000 <= q < 0x8000_0000;
    assert q % 0x1_0000_0000 == if q >= 0 then q else q + 0x1_0000_0000;
  }

  lemma Slices(a: seq<byte>, b: seq<byte>, i: nat, j: nat)
    requires i <= j <= |a|
    ensures (a + b)[i..j] == a[i..j]
  {
  }

  /** Every field of a written page is read back. */
  lemma WrittenReads(h: Header, lacing: seq<byte>, body: seq<byte>)
    requires Fits(h, lacing, body)
    ensures var page := Write(h, lacing, body);
            && PageShape(page) && Lacing(page) == lacing && PageBody(page) == body
            && (Continues(page) <==> h.continued) && (BeginsStream(page) <==> h.begins) && (EndsStream(page) <==> h.ends)
            && Granule(page) == h.granule && Serial(page) == h.serial && Sequence(page) == h.sequence
            && U32LE(page, 22) == h.checksum && page[..4] == OggCapture() && page[4] == 0 && page[5] < 8
  {
    hide EncodeU32LE, Front, U32LE, Total;
    var page := Write(h, lacing, body);
    var front, rest := Front(h), EncodeU32LE(h.checksum) + [|lacing|] + lacing + body;
    FrontWords(h);
    assert page == front + rest;
    Slices(front, rest, 0, 4);
    Slices(front, rest, 6, 10);
    Slices(front, rest, 10, 14);
    Slices(front, rest, 14, 18);
    Slices(front, rest, 18, 22);
    WordAt(page, 6, h.granule % 0x1_0000_0000);
    WordAt(page, 10, h.granule / 0x1_0000_0000 % 0x1_0000_0000);
    WordAt(page, 14, h.serial);
    WordAt(page, 18, h.sequence);
    assert page[22..26] == EncodeU32LE(h.checksum);
    WordAt(page, 22, h.checksum);
    Halves(h.granule);
    assert page[4] == front[4] && page[5] == front[5];
    assert page[26] == |lacing| && page[27..27 + |lacing|] == lacing && page[27 + |lacing|..] == body;
  }

  /** Clearing the checksum is writing a zero. */
  lemma ClearedIsZero(h: Header, lacing: seq<byte>, body: seq<byte>)
    requires Fits(h, lacing, body)
    ensures WithoutChecksum(Write(h, lacing, body)) == Write(h.(checksum := 0), lacing, body)
  {
    hide Front, Total;
    var front, rest := Front(h), [|lacing|] + lacing + body;
    assert Front(h.(checksum := 0)) == front by { SameFront(h); }
    assert EncodeU32LE(0) == [0, 0, 0, 0];
    assert Write(h, lacing, body) == front + EncodeU32LE(h.checksum) + rest;
    assert Write(h.(checksum := 0), lacing, body) == front + [0, 0, 0, 0] + rest;
  }

  lemma SameFront(h: Header)
    requires h.serial < 0x1_0000_0000 && h.sequence < 0x1_0000_0000
    ensures Front(h.(checksum := 0)) == Front(h)
  {
  }

  function HeaderOf(page: seq<byte>): Header
    requires PageShape(page)
  {
    Header(Continues(page), BeginsStream(page), EndsStream(page), Granule(page), Serial(page), Sequence(page), U32LE(page, 22))
  }

  lemma FlagsRead(flags: byte)
    requires flags < 8
    ensures (if flags % 2 == 1 then 1 else 0) + (if flags / 2 % 2 == 1 then 2 else 0) + (if flags / 4 % 2 == 1 then 4 else 0)
         == flags as int
  {
  }

  lemma GranuleHalves(page: seq<byte>)
    requires |page| >= 27
    ensures -0x8000_0000_0000_0000 <= Granule(page) < 0x8000_0000_0000_0000
    ensures Granule(page) % 0x1_0000_0000 == U32LE(page, 6)
    ensures Granule(page) / 0x1_0000_0000 % 0x1_0000_0000 == U32LE(page, 10)
  {
    hide U32LE;
    var low, high := U32LE(page, 6), U32LE(page, 10);
    var g := Granule(page);
    var negative := if high < 0x8000_0000 then 0 else 1;
    assert g == low + 0x1_0000_0000 * (high as int - 0x1_0000_0000 * negative);
    assert g / 0x1_0000_0000 == high as int - 0x1_0000_0000 * negative;
  }

  /** A page is the one its fields write. */
  lemma PageIsWritten(page: seq<byte>)
    requires PageShape(page) && page[..4] == OggCapture() && page[4] == 0 && page[5] < 8
    ensures Fits(HeaderOf(page), Lacing(page), PageBody(page))
    ensures Write(HeaderOf(page), Lacing(page), PageBody(page)) == page
  {
    hide U32LE, EncodeU32LE, Total, Granule;
    var h := HeaderOf(page);
    GranuleHalves(page);
    FlagsRead(page[5]);
    WordOf(page, 6);
    WordOf(page, 10);
    WordOf(page, 14);
    WordOf(page, 18);
    WordOf(page, 22);
    assert page[..22] == Front(h) by {
      assert page[..6] == ['O' as byte, 'g' as byte, 'g' as byte, 'S' as byte, 0, Flags(h)] by {
        assert forall i :: 0 <= i < 4 ==> page[i] == page[..4][i];
      }
      assert page[..22] == page[..6] + page[6..10] + page[10..14] + page[14..18] + page[18..22];
    }
    assert page == page[..22] + page[22..26] + [page[26]] + Lacing(page) + PageBody(page);
  }

  /** The pages of a file are exactly the written ones whose checksum is that of the page written with a zero checksum. */
  lemma PagesAreWritten(page: seq<byte>)
    ensures IsPage(page) <==> exists h, lacing, body ::
              && Fits(h, lacing, body) && Write(h, lacing, body) == page
              && (h.continued ==> lacing != [])
              && h.checksum == Number(OggCrc(0, Write(h.(checksum := 0), lacing, body)))
  {
    hide Total, U32LE, Write, OggCrc, Number, WithoutChecksum, Granule, OggCapture;
    if IsPage(page) {
      PageIsWritten(page);
      ClearedIsZero(HeaderOf(page), Lacing(page), PageBody(page));
    }
    if h, lacing, body :|
      && Fits(h, lacing, body) && Write(h, lacing, body) == page
      && (h.continued ==> lacing != [])
      && h.checksum == Number(OggCrc(0, Write(h.(checksum := 0), lacing, body)))
    {
      WrittenReads(h, lacing, body);
      ClearedIsZero(h, lacing, body);
    }
  }

  /** The one page a profile stream may start with: flags, granule position and an "OpusHead" packet for one channel. */
  lemma HeadPageExactly(h: Header, lacing: seq<byte>, body: seq<byte>)
    requires Fits(h, lacing, body)
    ensures IsHeadPage(Write(h, lacing, body)) <==>
              && !h.continued && h.begins && !h.ends && h.granule == 0 && lacing == [19]
              && (forall i :: 0 <= i < 8 ==> body[i] == "OpusHead"[i] as byte)
              && body[8] == 1 && body[9] == 1 && body[18] == 0
  {
    hide U32LE, Write, Granule, OggCapture;
    WrittenReads(h, lacing, body);
    var page := Write(h, lacing, body);
    FlagsRead(page[5]);
    if lacing == [19] {
      assert lacing[1..] == [] && Total([]) == 0 && Total(lacing) == 19;
      assert |body| == 19;
      assert body[..8] == HeadMagic() <==> forall i :: 0 <= i < 8 ==> body[i] == HeadMagic()[i] by {
        assert forall i :: 0 <= i < 8 ==> body[..8][i] == body[i];
      }
      MagicText();
    }
  }

  lemma MagicText()
    ensures forall i :: 0 <= i < 8 ==> HeadMagic()[i] == "OpusHead"[i] as byte
    ensures forall i :: 0 <= i < 8 ==> Magic()[i] == "OpusTags"[i] as byte
  {
  }

  lemma {:induction false} LacingEnds(packets: seq<seq<byte>>)
    ensures packets == [] <==> LacingOfPackets(packets) == []
    ensures packets != [] ==>
              var lacing := LacingOfPackets(packets); lacing[|lacing| - 1] == |packets[|packets| - 1]| % 255
    decreases |packets|
  {
    if packets != [] {
      LacingEnds(packets[1..]);
      if |packets| > 1 {
        assert packets[1..][|packets| - 2] == packets[|packets| - 1];
      }
    }
  }

  /** Whole packets and k segments of one that goes on: the page completes some packet if there is one, and leaves one open if k > 0. */
  lemma PacketsOnPage(h: Header, packets: seq<seq<byte>>, k: nat, body: seq<byte>)
    requires Fits(h, LacingOfPackets(packets) + WholeSegments(k), body)
    ensures var page := Write(h, LacingOfPackets(packets) + WholeSegments(k), body);
            PageShape(page) && (LeavesOpen(page) <==> k > 0) && (CompletesPacket(page) <==> packets != [])
  {
    hide Write, Fits, LacingOfPackets;
    var lacing := LacingOfPackets(packets) + WholeSegments(k);
    WrittenReads(h, lacing, body);
    LacingEnds(packets);
    var n := |LacingOfPackets(packets)|;
    assert k > 0 ==> lacing[|lacing| - 1] == 255;
    if packets != [] {
      assert lacing[n - 1] == LacingOfPackets(packets)[n - 1] < 255;
    } else {
      assert lacing == WholeSegments(k);
    }
  }
}
