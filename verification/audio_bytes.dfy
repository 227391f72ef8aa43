/**
 * The numbers behind the AMR and MPEG checks, stated on the bytes of a frame: how long it is for
 * its bit rate and sample rate, how many bytes an AMR mode takes, and how tags are skipped.
 */
module AudioBytes {
  import opened AudioFrames
  import opened Bytes
  import opened FrameWalks
  import opened Wrappers

  // ----- MPEG audio (ISO/IEC 11172-3, ISO/IEC 13818-3) -----

  /** 32, 40, 48, 56, then the same steps doubled, and so on: the scale of bit rates. */
  function Scale(i: nat): nat
  {
    Pow2(i / 4) * (32 + 8 * (i % 4))
  }

  /** The bit rate an index of 1 to 14 stands for, in kbit/s. */
  function StatedKbps(mpeg1: bool, layer: nat, index: nat): nat
    requires 1 <= index <= 14 && 1 <= layer <= 3
  {
    if mpeg1 then
      if layer == 1 then 32 * index
      else if layer == 2 then Scale(if index == 1 then 0 else index)
      else Scale(index - 1)
    else if layer == 1 then
      if index == 1 then 32 else if index <= 8 then Scale(index)
      else if index <= 12 then 128 + 16 * (index - 8) else 192 + 32 * (index - 12)
    else if index <= 8 then 8 * index else 64 + 16 * (index - 8)
  }

  /** The sample rate in Hz: MPEG-1 has the full rate, MPEG-2 half of it, MPEG-2.5 a quarter. */
  function StatedHz(version: nat, index: nat): nat
    requires index < 3
  {
    [44100, 48000, 32000][index] / (if version == 3 then 1 else if version == 2 then 2 else 4)
  }

  function SamplesPerFrame(mpeg1: bool, layer: nat): nat
  {
    if layer == 1 then 384 else if layer == 3 && !mpeg1 then 576 else 1152
  }

  lemma Mpeg1LayerTwoKbps(index: nat)
    requires 1 <= index <= 14
    ensures BitrateKbps(true, 2, index) == StatedKbps(true, 2, index)
  {
    hide Pow2;
    Pow2Values();
  }

  lemma Mpeg1Kbps(layer: nat, index: nat)
    requires 1 <= index <= 14 && (layer == 1 || layer == 3)
    ensures BitrateKbps(true, layer, index) == StatedKbps(true, layer, index)
  {
    hide Pow2;
    Pow2Values();
  }

  lemma Mpeg2Kbps(layer: nat, index: nat)
    requires 1 <= index <= 14 && 1 <= layer <= 3
    ensures BitrateKbps(false, layer, index) == StatedKbps(false, layer, index)
  {
    hide Pow2;
    Pow2Values();
  }

  /** The tables hold the stated bit rates. */
  lemma KbpsAsStated(mpeg1: bool, layer: nat, index: nat)
    requires 1 <= index <= 14 && 1 <= layer <= 3
    ensures BitrateKbps(mpeg1, layer, index) == StatedKbps(mpeg1, layer, index)
  {
    hide BitrateKbps, StatedKbps;
    if mpeg1 && layer == 2 {
      Mpeg1LayerTwoKbps(index);
    } else if mpeg1 {
      Mpeg1Kbps(layer, index);
    } else {
      Mpeg2Kbps(layer, index);
    }
  }

  lemma ProductsGrow(y: nat, a: int, b: int)
    requires a <= b
    ensures y * a <= y * b
  {
  }

  lemma Quotient(x: nat, y: nat, q: int)
    requires y > 0
    ensures q == x / y <==> y * q <= x < y * q + y
  {
    var d := x / y;
    assert x == y * d + x % y;
    if q < d {
      ProductsGrow(y, q + 1, d);
      assert y * (q + 1) == y * q + y;
    } else if q > d {
      ProductsGrow(y, d + 1, q);
      assert y * (d + 1) == y * d + y;
    }
  }

  /** A frame is as many whole slots as its samples take at its bit rate, plus the padding slot. */
  ghost predicate Holds(n: nat, slot: nat, padding: nat, samples: nat, bitsPerSecond: nat, hz: nat)
    requires slot > 0
  {
    var bits := 8 * slot;
    && n % slot == 0
    && bits * (hz * (n / slot - padding)) <= samples * bitsPerSecond < bits * (hz * (n / slot - padding) + hz)
  }

  lemma LengthHolds(mpeg1: bool, layer: nat, bitrate: nat, hz: nat, padding: nat, n: nat)
    requires hz > 0 && 1 <= layer <= 3
    ensures n == LengthOf(mpeg1, layer, bitrate, hz, padding)
       <==> Holds(n, if layer == 1 then 4 else 1, padding, SamplesPerFrame(mpeg1, layer), bitrate, hz)
  {
    if layer == 1 {
      Quotient(12 * bitrate, hz, n / 4 - padding);
    } else {
      Quotient((if layer == 3 && !mpeg1 then 72 else 144) * bitrate, hz, n - padding);
    }
  }

  /**
   * A header announces a frame of n bytes exactly when its sync, version, layer, rates and
   * emphasis are allowed and n bytes hold the samples of a frame at the announced rates.
   */
  lemma MpegLengthExactly(h: seq<byte>, n: nat)
    ensures MpegFrameLength(h) == Some(n) <==>
            && |h| >= 4 && h[0] == 255 && h[1] >= 224
            && var version, layer := h[1] as int / 8 % 4, 4 - h[1] as int / 2 % 4;
            && var kbps, hz := h[2] as int / 16, h[2] as int / 4 % 4;
            && version != 1 && layer != 4 && 1 <= kbps <= 14 && hz != 3 && h[3] % 4 != 2
            && Holds(n, if layer == 1 then 4 else 1, h[2] as int / 2 % 2, SamplesPerFrame(version == 3, layer),
                     1000 * StatedKbps(version == 3, layer, kbps), StatedHz(version, hz))
  {
    hide BitrateKbps, StatedKbps, LengthOf, Holds, SamplesPerFrame;
    if |h| >= 4 {
      var version, layer := h[1] as int / 8 % 4, 4 - h[1] as int / 2 % 4;
      var kbps, hz := h[2] as int / 16, h[2] as int / 4 % 4;
      if layer != 4 && 1 <= kbps <= 14 && hz != 3 {
        KbpsAsStated(version == 3, layer, kbps);
        assert SampleRate(version, hz) == StatedHz(version, hz);
        LengthHolds(version == 3, layer, 1000 * StatedKbps(version == 3, layer, kbps), StatedHz(version, hz),
                    h[2] as int / 2 % 2, n);
      }
    }
  }

  // ----- AMR (RFC 4867 section 5.3) -----

  /** Bytes of a frame with its header for each frame type; 0 where the type is not allowed. */
  const NB_SIZES: seq<nat> := [13, 14, 16, 18, 20, 21, 27, 32, 6, 0, 0, 0, 0, 0, 0, 1]
  const WB_SIZES: seq<nat> := [18, 24, 33, 37, 41, 47, 51, 59, 61, 6, 0, 0, 0, 0, 1, 1]

  /** Unused bits in its last byte. */
  const NB_UNUSED: seq<nat> := [1, 1, 2, 2, 4, 1, 4, 4, 1, 0, 0, 0, 0, 0, 0, 0]
  const WB_UNUSED: seq<nat> := [4, 7, 3, 3, 3, 3, 3, 3, 3, 0, 0, 0, 0, 0, 0, 0]

  lemma SpeechBitsFillBytes(wideband: bool, frameType: nat)
    requires frameType < 16
    ensures var size := (if wideband then WB_SIZES else NB_SIZES)[frameType];
            SpeechBits(wideband, frameType) ==
            if size == 0 then None else Some(8 * (size - 1) - (if wideband then WB_UNUSED else NB_UNUSED)[frameType])
  {
  }

  /** A frame of n bytes starts a text exactly when its mode has n bytes and its reserved and unused bits are zero. */
  lemma AmrLengthExactly(wideband: bool, w: seq<byte>, n: nat)
    ensures AmrLength(wideband, w) == Some(n) <==>
            && 0 < n <= |w| && w[0] < 128 && w[0] % 4 == 0
            && n == (if wideband then WB_SIZES else NB_SIZES)[w[0] / 8]
            && (n > 1 ==> w[n - 1] as int % Pow2((if wideband then WB_UNUSED else NB_UNUSED)[w[0] / 8]) == 0)
  {
    hide Pow2, SpeechBits;
    if |w| > 0 && w[0] < 128 {
      SpeechBitsFillBytes(wideband, w[0] as int / 8);
    }
  }

  // ----- tags -----

  lemma Marks()
    ensures NbMagic() == seq(6, i requires 0 <= i < 6 => "#!AMR\n"[i] as byte)
    ensures WbMagic() == seq(9, i requires 0 <= i < 9 => "#!AMR-WB\n"[i] as byte)
    ensures Id3v2() == ['I' as byte, 'D' as byte, '3' as byte] && Id3v1() == ['T' as byte, 'A' as byte, 'G' as byte]
  {
  }

  /** The text in front decides which modes the frames behind it may have. */
  lemma MagicSelectsBand(rest: seq<byte>)
    ensures IsAmrFile(seq(9, i requires 0 <= i < 9 => "#!AMR-WB\n"[i] as byte) + rest) <==> Accepted(AmrCut(true), rest, 100000)
    ensures IsAmrFile(seq(6, i requires 0 <= i < 6 => "#!AMR\n"[i] as byte) + rest) <==> Accepted(AmrCut(false), rest, 100000)
  {
    hide Accepted, AmrCut;
    Marks();
    var wide, narrow := WbMagic() + rest, NbMagic() + rest;
    assert wide[9..] == rest && narrow[6..] == rest;
    assert wide[5] == WbMagic()[5] && narrow[5] == NbMagic()[5];
  }

  /** The header of an ID3v2 tag: its size is four digits to the base 128. */
  function TagHeader(major: byte, revision: byte, flags: byte, size: nat): (h: seq<byte>)
    requires size < 0x1000_0000
    ensures |h| == 10
  {
    ['I' as byte, 'D' as byte, '3' as byte, major, revision, flags,
     size / 0x20_0000, size / 0x4000 % 0x80, size / 0x80 % 0x80, size % 0x80]
  }

  lemma FourDigits(size: nat)
    requires size < 0x1000_0000
    ensures size == size / 0x20_0000 * 0x20_0000 + size / 0x4000 % 0x80 * 0x4000 + size / 0x80 % 0x80 * 0x80 + size % 0x80
  {
    assert size / 0x4000 == size / 0x80 / 0x80 && size / 0x20_0000 == size / 0x4000 / 0x80;
  }

  /** A tag is skipped with its header, its payload and, in version 4, its footer, if four bytes are left. */
  lemma TagIsSkipped(major: byte, revision: byte, flags: byte, size: nat, rest: seq<byte>)
    requires size < 0x1000_0000
    ensures var n := 10 + size + (if major == 4 && flags as int / 16 % 2 == 1 then 10 else 0);
            AudioStart(TagHeader(major, revision, flags, size) + rest) ==
            if 2 <= major <= 4 && revision != 255 && n + 4 <= 10 + |rest| then Some(n) else None
  {
    var file := TagHeader(major, revision, flags, size) + rest;
    FourDigits(size);
    assert file[..3] == Id3v2();
    assert file[0] == 'I' as byte && file[3] == major && file[4] == revision && file[5] == flags;
    assert file[6] == size / 0x20_0000 && file[7] == size / 0x4000 % 0x80;
    assert file[8] == size / 0x80 % 0x80 && file[9] == size % 0x80;
  }

  /** Tags around the audio do not change the verdict. */
  lemma TagsDoNotMatter(revision: byte, payload: seq<byte>, audio: seq<byte>, trailer: seq<byte>)
    requires |payload| < 0x1000_0000 && revision != 255
    requires |trailer| == 128 && trailer[..3] == ['T' as byte, 'A' as byte, 'G' as byte]
    ensures IsMpegFile(TagHeader(4, revision, 0, |payload|) + (payload + (audio + trailer)))
       <==> Accepted(MpegCut(), audio, 100000)
  {
    hide AudioStart, Accepted, MpegCut, TagHeader;
    var front := TagHeader(4, revision, 0, |payload|) + payload;
    var file := TagHeader(4, revision, 0, |payload|) + (payload + (audio + trailer));
    TagIsSkipped(4, revision, 0, |payload|, payload + (audio + trailer));
    assert file == front + audio + trailer;
    assert file[|file| - 128..|file| - 125] == trailer[..3];
    assert file[|front|..|file| - 128] == audio;
  }
}
