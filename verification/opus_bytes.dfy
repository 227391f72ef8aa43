/**
 * The numbers of RFC 6716 in the upload check, stated on the bytes of a packet: how long a frame
 * of each configuration lasts, how long packets and frames may be, and how lengths and padding
 * are written.
 */
module OpusBytes {
  import opened Bytes
  import opened OpusPackets

  /**
   * Section 3.1, table 2, in tenths of a millisecond: three SILK bandwidths with 10, 20, 40 and
   * 60 ms, two hybrid ones with 10 and 20 ms, four CELT ones with 2.5, 5, 10 and 20 ms.
   */
  const DURATIONS: seq<nat> := [
    100, 200, 400, 600, 100, 200, 400, 600, 100, 200, 400, 600,
    100, 200, 100, 200,
    25, 50, 100, 200, 25, 50, 100, 200, 25, 50, 100, 200, 25, 50, 100, 200]

  /** 48 samples a millisecond. */
  lemma SamplesLast(config: nat)
    requires config < 32
    ensures 10 * SamplesPerFrame(config) == 48 * DURATIONS[config]
  {
    hide Pow2;
    Pow2Values();
  }

  /** A packet of code 0 is one frame, whatever its configuration. */
  lemma SingleFrame(packet: seq<byte>)
    requires packet != [] && packet[0] % 4 == 0
    ensures IsOpusPacket(packet) <==> |packet| - 1 <= 1275
  {
    hide WellFormed, Encode, SamplesPerFrame, Region;
    SamplesBound(packet[0] / 8);
    LayoutDecides(packet, 1, false, NoPadding, 1, |packet|);
    EqualRegion(packet, 1, |packet|, 1);
  }

  /** A packet of code 1 is two frames of one length. */
  lemma EqualPair(packet: seq<byte>)
    requires packet != [] && packet[0] % 4 == 1
    ensures IsOpusPacket(packet) <==> (|packet| - 1) % 2 == 0 && (|packet| - 1) / 2 <= 1275
  {
    hide WellFormed, Encode, SamplesPerFrame, Region;
    SamplesBound(packet[0] / 8);
    LayoutDecides(packet, 2, false, NoPadding, 1, |packet|);
    EqualRegion(packet, 1, |packet|, 2);
  }

  lemma CodedLengthsOfPair(w: seq<byte>, n: nat, used: nat)
    requires n <= MAX_FRAME_BYTES && EncodeLength(n) <= w && used == |EncodeLength(n)|
    ensures Region(w, true, 2) <==> 0 <= |w| - used - n <= MAX_FRAME_BYTES
  {
    hide EncodeLength, CarriesFrames, Flatten;
    CodedFramesIffLengths(w, 2);
    EncodeLengthsSnoc([], n);
    NoLengths();
    SumSnoc([], n);
    assert [] + [n] == [n];
    forall ls | CodedLengths(w, 2, ls)
      ensures ls == [n]
    {
      LengthsArePrefixFree([n], ls, w);
    }
    assert CodedLengths(w, 2, [n]) <==> 0 <= |w| - used - n <= MAX_FRAME_BYTES;
  }

  /** A packet of code 2 starts with its first frame's length: one byte up to 251, else two. */
  lemma CodedPair(packet: seq<byte>)
    requires |packet| >= 2 && packet[0] % 4 == 2
    ensures packet[1] < 252 ==>
              (IsOpusPacket(packet) <==> 0 <= |packet| - 2 - packet[1] as int <= 1275)
    ensures packet[1] >= 252 && |packet| >= 3 ==>
              (IsOpusPacket(packet) <==> 0 <= |packet| - 3 - (packet[1] as int + 4 * packet[2] as int) <= 1275)
  {
    var w := packet[1..];
    if packet[1] < 252 || |packet| >= 3 {
      var (n, used) := DecodeLength(w);
      LengthCodeIsBijective(n, w);
      CodedLengthsOfPair(w, n, used);
      hide WellFormed, Encode, SamplesPerFrame, Region, EncodeLength;
      SamplesBound(packet[0] / 8);
      assert packet[1..|packet|] == w;
      LayoutDecides(packet, 2, true, NoPadding, 1, |packet|);
    }
  }

  /** Many frames of one length: at most 48 of them and 120 ms in all. */
  lemma EqualFrames(packet: seq<byte>)
    requires |packet| >= 2 && packet[0] % 4 == 3 && packet[1] < 64
    ensures var config, n, rest := packet[0] as int / 8, packet[1] as int, |packet| - 2;
            IsOpusPacket(packet) <==> n > 0 && n * DURATIONS[config] <= 1200 && rest % n == 0 && rest / n <= 1275
  {
    hide WellFormed, Encode, SamplesPerFrame, Region, PaddedBy;
    var config, n := packet[0] as int / 8, packet[1] as int;
    NoPaddingFits(packet);
    FramesDecide(packet, n, NoPadding, 2, |packet|);
    if n > 0 && n * DURATIONS[config] <= 1200 && (|packet| - 2) % n == 0 && (|packet| - 2) / n <= 1275 {
      FewFrames(config, n);
      AtMost((|packet| - 2) / n, 1275, n);
    }
  }

  /** Code 3 with equal frames between an offset and an end. */
  lemma FramesDecide(packet: seq<byte>, n: nat, padding: Padding, offset: nat, end: nat)
    requires |packet| >= 2 && packet[0] % 4 == 3 && n == packet[1] as int % 64 && packet[1] < 128
    requires padding.Padding? == (packet[1] / 64 == 1) && PaddedBy(packet, padding, offset, end)
    ensures (exists p :: WellFormed(p) && Encode(p) == packet) <==>
              && n > 0 && n * DURATIONS[packet[0] as int / 8] <= 1200
              && (end - offset) % n == 0 && (end - offset) / n <= 1275
  {
    hide WellFormed, Encode, SamplesPerFrame, Region, PaddedBy;
    var config := packet[0] as int / 8;
    SamplesLast(config);
    assert SamplesPerFrame(config) * n <= MAX_PACKET_SAMPLES <==> n * DURATIONS[config] <= 1200 by {
      Scaled(SamplesPerFrame(config), DURATIONS[config], n);
    }
    if n > 0 && n * DURATIONS[config] <= 1200 {
      LayoutDecides(packet, n, false, padding, offset, end);
      EqualRegion(packet, offset, end, n);
    } else if p :| WellFormed(p) && Encode(p) == packet {
      EncodingIsPlausible(p);
    }
  }

  lemma Scaled(samples: nat, tenths: nat, n: nat)
    requires 10 * samples == 48 * tenths
    ensures 10 * (samples * n) == 48 * (n * tenths)
  {
    assert 10 * (samples * n) == (10 * samples) * n == (48 * tenths) * n;
  }

  /** 2.5 ms is the shortest frame. */
  lemma FewFrames(config: nat, n: nat)
    requires config < 32 && n * DURATIONS[config] <= 1200
    ensures n <= 48
  {
    assert DURATIONS[config] >= 25;
    assert n * DURATIONS[config] >= n * 25;
  }

  lemma AtMost(q: nat, most: nat, n: nat)
    requires q <= most
    ensures q * n <= most * n
  {
  }

  /** One-byte frames: any number of them that lasts at most 120 ms. */
  lemma OneByteFrames(config: nat, n: byte, frames: seq<byte>)
    requires config < 32 && n < 64 && |frames| == n as int
    ensures IsOpusPacket([8 * config + 3, n] + frames) <==> 0 < n && n as int * DURATIONS[config] <= 1200
  {
    hide IsOpusPacket;
    var packet: seq<byte> := [8 * config + 3, n] + frames;
    assert packet[0] == 8 * config + 3 && packet[1] == n && |packet| == 2 + n as int;
    EqualFrames(packet);
  }

  /** Padding of 254 k + last bytes is announced by k bytes 255 and the byte last, and changes nothing else. */
  lemma PaddedFrames(toc: byte, n: byte, k: nat, last: byte, frames: seq<byte>, padding: seq<byte>)
    requires toc % 4 == 3 && n < 64 && last < 255 && |padding| == 254 * k + last as int
    ensures var packet := [toc, 64 + n] + (Repeat(255, k) + [last]) + frames + padding;
            IsOpusPacket(packet) <==> |packet| <= 61440 && IsOpusPacket([toc, n] + frames)
  {
    hide WellFormed, Encode, SamplesPerFrame, Region, Layout;
    var packet := [toc, 64 + n] + (Repeat(255, k) + [last]) + frames + padding;
    var plain: seq<byte> := [toc, n] + frames;
    var p, offset := Padding(k, last, padding), 3 + k;
    var end := offset + |frames|;
    assert packet[2..offset] == Repeat(255, k) + [last] && packet[end..] == padding;
    assert PaddedBy(packet, p, offset, end);
    hide PaddedBy;
    FramesDecide(packet, n as int, p, offset, end);
    assert plain[0] == toc && plain[1] == n && |plain| == 2 + |frames|;
    EqualFrames(plain);
  }
}
