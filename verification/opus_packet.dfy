/**
 * Opus packet framing (RFC 6716 section 3.2): the frame-packing grammar as a
 * serialiser, and the upload check `matchesOpusPacketFraming`, which accepts
 * exactly the serialiser's image.
 */
module OpusPackets {
  import opened Bytes

  const MAX_AUDIO_PACKET_BYTES: nat := 61440
  const MAX_FRAME_BYTES: nat := 1275
  /** 120 ms at 48 kHz. */
  const MAX_PACKET_SAMPLES: nat := 5760

  /** The padding of a code 3 packet: `chain` bytes 255 and one byte below 255, then the padding itself. */
  datatype Padding = NoPadding | Padding(chain: nat, last: nat, bytes: seq<byte>)

  /**
   * What a packet says: its configuration, the stereo bit, the packing code, whether
   * frame lengths are coded, the padding and the frames.
   */
  datatype Packet = Packet(config: nat, stereo: bool, code: nat, coded: bool, padding: Padding, frames: seq<seq<byte>>)

  // ----- the grammar -----

  /** Samples at 48 kHz in one frame of a configuration (RFC 6716 section 3.1). */
  function SamplesPerFrame(config: nat): nat
  {
    if config >= 16 then 120 * Pow2(config % 4)
    else if config >= 12 then 480 * Pow2(config % 2)
    else if config % 4 == 3 then 2880
    else 480 * Pow2(config % 4)
  }

  /** RFC 6716 section 3.2.1: one byte up to 251, two bytes up to 1275. */
  function EncodeLength(n: nat): (s: seq<byte>)
    requires n <= MAX_FRAME_BYTES
    ensures 1 <= |s| <= 2
  {
    if n < 252 then [n] else [252 + n % 4, (n - 252 - n % 4) / 4]
  }

  predicate LengthsOk(lengths: seq<nat>)
  {
    forall i :: 0 <= i < |lengths| ==> lengths[i] <= MAX_FRAME_BYTES
  }

  function EncodeLengths(lengths: seq<nat>): seq<byte>
    requires LengthsOk(lengths)
  {
    if lengths == [] then [] else EncodeLength(lengths[0]) + EncodeLengths(lengths[1..])
  }

  predicate FramesOk(frames: seq<seq<byte>>)
  {
    forall i :: 0 <= i < |frames| ==> |frames[i]| <= MAX_FRAME_BYTES
  }

  predicate SameLength(frames: seq<seq<byte>>)
  {
    forall i, j :: 0 <= i < |frames| && 0 <= j < |frames| ==> |frames[i]| == |frames[j]|
  }

  function Lengths(frames: seq<seq<byte>>): (r: seq<nat>)
    ensures |r| == |frames| && forall i :: 0 <= i < |r| ==> r[i] == |frames[i]|
  {
    seq(|frames|, i requires 0 <= i < |frames| => |frames[i]|)
  }

  /** The frames of a packet, with the coded lengths of all but the last before them. */
  ghost predicate CarriesFrames(w: seq<byte>, coded: bool, frames: seq<seq<byte>>)
  {
    && frames != []
    && FramesOk(frames)
    && (if coded then w == EncodeLengths(Lengths(frames)[..|frames| - 1]) + Flatten(frames)
        else SameLength(frames) && w == Flatten(frames))
  }

  function PaddingTotal(padding: Padding): nat
  {
    match padding
    case NoPadding => 0
    case Padding(chain, last, _) => 254 * chain + last
  }

  function PaddingChain(padding: Padding): seq<byte>
    requires padding.Padding? ==> padding.last < 255
  {
    match padding
    case NoPadding => []
    case Padding(chain, last, _) => Repeat(255, chain) + [last]
  }

  predicate PaddingOk(padding: Padding)
  {
    padding.Padding? ==> padding.last < 255 && |padding.bytes| == PaddingTotal(padding)
  }

  predicate WellFormed(p: Packet)
  {
    && p.config < 32
    && p.frames != []
    && FramesOk(p.frames)
    && SamplesPerFrame(p.config) * |p.frames| <= MAX_PACKET_SAMPLES
    && PaddingOk(p.padding)
    && (!p.coded ==> SameLength(p.frames))
    && match p.code
       case 0 => |p.frames| == 1 && !p.coded && p.padding.NoPadding?
       case 1 => |p.frames| == 2 && !p.coded && p.padding.NoPadding?
       case 2 => |p.frames| == 2 && p.coded && p.padding.NoPadding?
       case 3 => |p.frames| < 64
       case _ => false
  }

  function Toc(p: Packet): byte
    requires p.config < 32 && p.code < 4
  {
    8 * p.config + (if p.stereo then 4 else 0) + p.code
  }

  function Control(p: Packet): byte
    requires |p.frames| < 64
  {
    |p.frames| + (if p.padding.Padding? then 64 else 0) + (if p.coded then 128 else 0)
  }

  /** The TOC byte and, for code 3, the frame count byte and the padding length. */
  function Head(p: Packet): seq<byte>
    requires WellFormed(p)
  {
    if p.code == 3 then [Toc(p), Control(p)] + PaddingChain(p.padding) else [Toc(p)]
  }

  /** The coded lengths, if any, and the frames. */
  function Body(p: Packet): seq<byte>
    requires WellFormed(p)
  {
    (if p.coded then EncodeLengths(Lengths(p.frames)[..|p.frames| - 1]) else []) + Flatten(p.frames)
  }

  function Encode(p: Packet): seq<byte>
    requires WellFormed(p)
  {
    Head(p) + Body(p) + (if p.padding.Padding? then p.padding.bytes else [])
  }

  /** A packet of the profile: at most 61,440 bytes, and the encoding of some frame list. */
  ghost predicate IsOpusPacket(s: seq<byte>)
  {
    |s| <= MAX_AUDIO_PACKET_BYTES && exists p :: WellFormed(p) && Encode(p) == s
  }

  // ----- the length code -----

  /** The number a length field stands for, and the bytes it takes, as the reader computes it. */
  function DecodeLength(s: seq<byte>): (r: (nat, nat))
    requires s != [] && (s[0] >= 252 ==> |s| >= 2)
    ensures r.0 <= MAX_FRAME_BYTES && r.1 <= |s|
  {
    if s[0] < 252 then (s[0] as int, 1) else (s[0] as int + 4 * s[1] as int, 2)
  }

  /** The length code is a bijection between 0..1275 and its fields. */
  lemma LengthCodeIsBijective(n: nat, s: seq<byte>)
    requires n <= MAX_FRAME_BYTES
    ensures DecodeLength(EncodeLength(n)) == (n, |EncodeLength(n)|)
    ensures s != [] && (s[0] >= 252 ==> |s| >= 2) ==> EncodeLength(DecodeLength(s).0) == s[..DecodeLength(s).1]
  {
    if s != [] && (s[0] >= 252 ==> |s| >= 2) {
      var (v, k) := DecodeLength(s);
      if s[0] < 252 {
        assert s[..1] == [s[0]];
      } else {
        assert s[0] % 4 == v % 4;
        assert s[..2] == [s[0], s[1]];
      }
    }
  }

  lemma LengthFieldIsPrefixFree(n: nat, s: seq<byte>)
    requires n <= MAX_FRAME_BYTES
    requires EncodeLength(n) <= s
    ensures s != [] && (s[0] >= 252 ==> |s| >= 2) && DecodeLength(s) == (n, |EncodeLength(n)|)
  {
    LengthCodeIsBijective(n, s);
    assert s[0] == EncodeLength(n)[0];
    if s[0] >= 252 {
      assert s[1] == EncodeLength(n)[1];
    }
  }

  lemma {:induction false} EncodeLengthsSnoc(a: seq<nat>, n: nat)
    requires LengthsOk(a) && n <= MAX_FRAME_BYTES
    ensures LengthsOk(a + [n]) && EncodeLengths(a + [n]) == EncodeLengths(a) + EncodeLength(n)
  {
    hide EncodeLength;
    if a == [] {
      assert a + [n] == [n] && [n][1..] == [];
      assert EncodeLengths([n]) == EncodeLength(n) + [];
    } else {
      assert (a + [n])[1..] == a[1..] + [n];
      EncodeLengthsSnoc(a[1..], n);
    }
  }

  /** Coded lengths can be read in one way only. */
  lemma {:induction false} LengthsArePrefixFree(a: seq<nat>, b: seq<nat>, w: seq<byte>)
    requires LengthsOk(a) && LengthsOk(b)
    requires EncodeLengths(a) <= w && EncodeLengths(b) <= w
    requires |a| <= |b|
    ensures a <= b
  {
    hide EncodeLength, DecodeLength;
    if a != [] {
      DropPrefix(EncodeLength(a[0]), EncodeLengths(a[1..]), w);
      DropPrefix(EncodeLength(b[0]), EncodeLengths(b[1..]), w);
      LengthFieldIsPrefixFree(a[0], w);
      LengthFieldIsPrefixFree(b[0], w);
      LengthsArePrefixFree(a[1..], b[1..], w[|EncodeLength(a[0])|..]);
    }
  }

  // ----- frames by their lengths -----

  /** The lengths a coded region can carry: all but the last are coded, the last is what remains. */
  ghost predicate CodedLengths(w: seq<byte>, n: nat, lengths: seq<nat>)
  {
    && |lengths| == n - 1
    && LengthsOk(lengths)
    && EncodeLengths(lengths) <= w
    && 0 <= |w| - |EncodeLengths(lengths)| - Sum(lengths) <= MAX_FRAME_BYTES
  }

  function CutAt(s: seq<byte>, lengths: seq<nat>): (frames: seq<seq<byte>>)
    requires Sum(lengths) <= |s|
    ensures |frames| == |lengths| + 1
    ensures Flatten(frames) == s
    ensures forall i :: 0 <= i < |lengths| ==> |frames[i]| == lengths[i]
    ensures |frames[|lengths|]| == |s| - Sum(lengths)
    decreases lengths
  {
    if lengths == [] then
      assert [s][1..] == [] && Flatten([s]) == s + [];
      [s]
    else
      var rest := CutAt(s[lengths[0]..], lengths[1..]);
      assert ([s[..lengths[0]]] + rest)[1..] == rest;
      [s[..lengths[0]]] + rest
  }

  lemma {:induction false} FlattenLength(frames: seq<seq<byte>>)
    ensures |Flatten(frames)| == Sum(Lengths(frames))
  {
    if frames != [] {
      FlattenLength(frames[1..]);
      assert Lengths(frames)[1..] == Lengths(frames[1..]);
    }
  }

  lemma FramesHaveLengths(w: seq<byte>, n: nat, frames: seq<seq<byte>>)
    requires |frames| == n && CarriesFrames(w, true, frames)
    ensures CodedLengths(w, n, Lengths(frames)[..n - 1])
  {
    hide EncodeLengths, Flatten, Sum;
    var all := Lengths(frames);
    FlattenLength(frames);
    assert all == all[..n - 1] + [all[n - 1]];
    SumSnoc(all[..n - 1], all[n - 1]);
  }

  lemma LengthsHaveFrames(w: seq<byte>, n: nat, lengths: seq<nat>) returns (frames: seq<seq<byte>>)
    requires n > 0 && CodedLengths(w, n, lengths)
    ensures |frames| == n && CarriesFrames(w, true, frames)
  {
    hide EncodeLengths, Flatten, Sum;
    frames := CutAt(w[|EncodeLengths(lengths)|..], lengths);
    assert Lengths(frames)[..n - 1] == lengths;
  }

  lemma CodedFramesIffLengths(w: seq<byte>, n: nat)
    requires n > 0
    ensures (exists frames :: |frames| == n && CarriesFrames(w, true, frames))
            <==> (exists lengths :: CodedLengths(w, n, lengths))
  {
    hide CarriesFrames, CodedLengths;
    if frames :| |frames| == n && CarriesFrames(w, true, frames) {
      FramesHaveLengths(w, n, frames);
    }
    if lengths :| CodedLengths(w, n, lengths) {
      var frames := LengthsHaveFrames(w, n, lengths);
    }
  }

  lemma {:induction false} EqualLengthsFlatten(frames: seq<seq<byte>>, k: nat)
    requires forall i :: 0 <= i < |frames| ==> |frames[i]| == k
    ensures |Flatten(frames)| == |frames| * k
  {
    if frames != [] {
      EqualLengthsFlatten(frames[1..], k);
      assert |frames| * k == (|frames| - 1) * k + k;
    }
  }

  function CutEqual(s: seq<byte>, n: nat, k: nat): (frames: seq<seq<byte>>)
    requires |s| == n * k
    ensures |frames| == n && Flatten(frames) == s
    ensures forall i :: 0 <= i < n ==> |frames[i]| == k
    decreases n
  {
    if n == 0 then []
    else
      assert (n - 1) * k == n * k - k;
      assert n * k >= k by { assert n * k == (n - 1) * k + k; assert (n - 1) * k >= 0; }
      [s[..k]] + CutEqual(s[k..], n - 1, k)
  }

  lemma EqualFramesIffDivisible(w: seq<byte>, n: nat)
    requires n > 0
    ensures (exists frames :: |frames| == n && CarriesFrames(w, false, frames))
            <==> |w| % n == 0 && |w| / n <= MAX_FRAME_BYTES
  {
    forall frames | |frames| == n && CarriesFrames(w, false, frames)
      ensures |w| % n == 0 && |w| / n <= MAX_FRAME_BYTES
    {
      EqualLengthsFlatten(frames, |frames[0]|);
      DivExact(n, |frames[0]|);
    }
    if |w| % n == 0 && |w| / n <= MAX_FRAME_BYTES {
      assert |w| == n * (|w| / n);
      var frames := CutEqual(w, n, |w| / n);
      assert CarriesFrames(w, false, frames);
    }
  }

  lemma DivExact(n: nat, k: nat)
    requires n > 0
    ensures (n * k) % n == 0 && (n * k) / n == k
  {
    var q, r := (n * k) / n, (n * k) % n;
    assert k - q >= 1 ==> n * (k - q) >= n;
    assert q - k >= 1 ==> n * (q - k) >= n;
    assert n * (k - q) == r;
    assert n * (q - k) == 0 - r;
  }

  // ----- the parts of an encoded packet -----

  lemma EncodeParts(p: Packet)
    requires WellFormed(p)
    ensures var s := Encode(p);
            var end := |s| - PaddingTotal(p.padding);
            && |Head(p)| <= end <= |s|
            && s[..|Head(p)|] == Head(p)
            && s[|Head(p)|..end] == Body(p)
            && CarriesFrames(s[|Head(p)|..end], p.coded, p.frames)
            && (p.padding.Padding? ==> s[end..] == p.padding.bytes)
  {
    var s := Encode(p);
    assert s[|Head(p)|..|Head(p)| + |Body(p)|] == Body(p);
  }

  lemma PartsEncode(s: seq<byte>, p: Packet, end: nat)
    requires WellFormed(p)
    requires |Head(p)| <= end <= |s|
    requires s[..|Head(p)|] == Head(p)
    requires CarriesFrames(s[|Head(p)|..end], p.coded, p.frames)
    requires s[end..] == if p.padding.Padding? then p.padding.bytes else []
    ensures Encode(p) == s
  {
    hide WellFormed, Head, Flatten, EncodeLengths, Lengths, FramesOk, SameLength;
    assert s[|Head(p)|..end] == Body(p);
    assert s == s[..|Head(p)|] + s[|Head(p)|..end] + s[end..];
  }

  // ----- reading a packet back -----

  ghost predicate Region(w: seq<byte>, coded: bool, n: nat)
  {
    exists frames :: |frames| == n && CarriesFrames(w, coded, frames)
  }

  /** `padding` is what bytes 2.. of a code 3 packet announce, with the frames in between. */
  ghost predicate PaddedBy(packet: seq<byte>, padding: Padding, offset: nat, end: nat)
  {
    && PaddingOk(padding)
    && 2 <= offset <= end <= |packet|
    && packet[2..offset] == PaddingChain(padding)
    && |packet| - end == PaddingTotal(padding)
    && packet[end..] == if padding.Padding? then padding.bytes else []
  }

  /** The frame count, the length coding, the padding and the frame region that the head of a packet fixes. */
  ghost predicate Layout(packet: seq<byte>, n: nat, coded: bool, padding: Padding, offset: nat, end: nat)
    ensures Layout(packet, n, coded, padding, offset, end) ==> packet != [] && offset <= end <= |packet|
  {
    && packet != []
    && n > 0
    && SamplesPerFrame(packet[0] / 8) * n <= MAX_PACKET_SAMPLES
    && if packet[0] % 4 == 3 then
         && |packet| >= 2
         && n == packet[1] % 64
         && coded == (packet[1] >= 128)
         && padding.Padding? == (packet[1] / 64 % 2 == 1)
         && PaddedBy(packet, padding, offset, end)
       else
         && n == (if packet[0] % 4 == 0 then 1 else 2)
         && coded == (packet[0] % 4 == 2)
         && padding == NoPadding && offset == 1 && end == |packet|
  }

  lemma ByteFields(p: Packet)
    requires p.config < 32 && p.code < 4 && |p.frames| < 64
    ensures Toc(p) / 8 == p.config && Toc(p) / 4 % 2 == (if p.stereo then 1 else 0) && Toc(p) % 4 == p.code
    ensures Control(p) % 64 == |p.frames| && (Control(p) >= 128) == p.coded
    ensures (Control(p) / 64 % 2 == 1) == p.padding.Padding?
  {
  }

  lemma HeadFields(p: Packet)
    requires WellFormed(p)
    ensures Toc(p) / 8 == p.config && (Toc(p) / 4 % 2 == 1) == p.stereo && Toc(p) % 4 == p.code
    ensures p.code == 3 ==> Control(p) % 64 == |p.frames| && (Control(p) >= 128) == p.coded
    ensures p.code == 3 ==> (Control(p) / 64 % 2 == 1) == p.padding.Padding?
    ensures Encode(p) != [] && Encode(p)[0] == Toc(p)
    ensures p.code == 3 ==> |Encode(p)| >= 2 && Encode(p)[1] == Control(p)
  {
    hide SamplesPerFrame, FramesOk, SameLength, PaddingOk, EncodeLengths, Lengths, Flatten;
    if p.code == 3 {
      ByteFields(p);
    }
    assert Encode(p)[0] == Head(p)[0];
  }

  lemma PaddingBytes(packet: seq<byte>, p: Padding, offset: nat, end: nat)
    requires PaddedBy(packet, p, offset, end) && p.Padding?
    ensures offset == p.chain + 3
    ensures forall i :: 2 <= i < 2 + p.chain ==> packet[i] == 255
    ensures packet[2 + p.chain] == p.last < 255
  {
    forall i | 2 <= i < 2 + p.chain
      ensures packet[i] == 255
    {
      assert packet[i] == packet[2..offset][i - 2];
    }
    assert packet[2 + p.chain] == packet[2..offset][p.chain];
  }

  lemma PaddingIsPrefixFree(packet: seq<byte>, a: Padding, b: Padding, offA: nat, endA: nat, offB: nat, endB: nat)
    requires PaddedBy(packet, a, offA, endA) && PaddedBy(packet, b, offB, endB)
    requires a.Padding? == b.Padding?
    ensures a == b && offA == offB && endA == endB
  {
    if a.Padding? {
      PaddingBytes(packet, a, offA, endA);
      PaddingBytes(packet, b, offB, endB);
      assert a.chain == b.chain;
    }
  }

  lemma EncodingHasLayout(p: Packet)
    requires WellFormed(p)
    ensures var s := Encode(p);
            var end := |s| - PaddingTotal(p.padding);
            && |Head(p)| <= end <= |s|
            && Layout(s, |p.frames|, p.coded, p.padding, |Head(p)|, end)
            && CarriesFrames(s[|Head(p)|..end], p.coded, p.frames)
  {
    EncodeParts(p);
    HeadFields(p);
    var s := Encode(p);
    if p.code == 3 {
      assert s[2..|Head(p)|] == Head(p)[2..] == PaddingChain(p.padding);
    }
  }

  lemma LayoutIsUnique(packet: seq<byte>, n: nat, coded: bool, padding: Padding, offset: nat, end: nat,
                       n': nat, coded': bool, padding': Padding, offset': nat, end': nat)
    requires Layout(packet, n, coded, padding, offset, end)
    requires Layout(packet, n', coded', padding', offset', end')
    ensures n == n' && coded == coded' && padding == padding' && offset == offset' && end == end'
  {
    if packet[0] % 4 == 3 {
      PaddingIsPrefixFree(packet, padding, padding', offset, end, offset', end');
    }
  }

  lemma LayoutDecides(packet: seq<byte>, n: nat, coded: bool, padding: Padding, offset: nat, end: nat)
    requires Layout(packet, n, coded, padding, offset, end)
    ensures (exists p :: WellFormed(p) && Encode(p) == packet) <==> Region(packet[offset..end], coded, n)
  {
    hide WellFormed, Encode, CarriesFrames, Layout;
    forall p | WellFormed(p) && Encode(p) == packet
      ensures Region(packet[offset..end], coded, n)
    {
      EncodingHasLayout(p);
      LayoutIsUnique(packet, n, coded, padding, offset, end,
                     |p.frames|, p.coded, p.padding, |Head(p)|, |packet| - PaddingTotal(p.padding));
    }
    if Region(packet[offset..end], coded, n) {
      var frames :| |frames| == n && CarriesFrames(packet[offset..end], coded, frames);
      var toc := packet[0];
      var p := Packet(toc / 8, toc / 4 % 2 == 1, toc % 4, coded, padding, frames);
      PacketFromLayout(packet, p, offset, end);
    }
  }

  lemma PacketFromLayout(packet: seq<byte>, p: Packet, offset: nat, end: nat)
    requires Layout(packet, |p.frames|, p.coded, p.padding, offset, end)
    requires CarriesFrames(packet[offset..end], p.coded, p.frames)
    requires p.config == packet[0] / 8 && p.stereo == (packet[0] / 4 % 2 == 1) && p.code == packet[0] % 4
    ensures WellFormed(p) && Encode(p) == packet
  {
    hide SamplesPerFrame, EncodeLengths, Flatten, Lengths, PaddingChain;
    assert WellFormed(p);
    assert Toc(p) == packet[0];
    HeadFromLayout(packet, p, offset, end);
    PartsEncode(packet, p, end);
  }

  lemma HeadFromLayout(packet: seq<byte>, p: Packet, offset: nat, end: nat)
    requires WellFormed(p) && Layout(packet, |p.frames|, p.coded, p.padding, offset, end)
    requires Toc(p) == packet[0]
    ensures packet[..offset] == Head(p)
  {
    hide SamplesPerFrame, EncodeLengths, Flatten, Lengths, PaddingChain, FramesOk, SameLength, PaddingOk;
    assert p.code == packet[0] % 4 by {
      HeadFields(p);
    }
    if p.code == 3 {
      assert packet[1] == packet[1] % 64 + 64 * (packet[1] / 64 % 2) + 128 * (packet[1] / 128);
      assert packet[..2] == [Toc(p), Control(p)];
      assert packet[..offset] == packet[..2] + packet[2..offset];
    }
  }

  /** A packet is the encoding of one frame list only. */
  lemma EncodingIsUnambiguous(p: Packet, q: Packet)
    requires WellFormed(p) && WellFormed(q)
    requires Encode(p) == Encode(q)
    ensures p == q
  {
    hide *;
    var s := Encode(p);
    EncodingHasLayout(p);
    EncodingHasLayout(q);
    HeadFields(p);
    HeadFields(q);
    LayoutIsUnique(s, |p.frames|, p.coded, p.padding, |Head(p)|, |s| - PaddingTotal(p.padding),
                   |q.frames|, q.coded, q.padding, |Head(q)|, |s| - PaddingTotal(q.padding));
    var end := |s| - PaddingTotal(p.padding);
    CarriedFramesAreUnique(s[|Head(p)|..end], p.coded, p.frames, q.frames);
  }

  lemma CarriedFramesAreUnique(w: seq<byte>, coded: bool, a: seq<seq<byte>>, b: seq<seq<byte>>)
    requires |a| == |b| && CarriesFrames(w, coded, a) && CarriesFrames(w, coded, b)
    ensures a == b
  {
    hide EncodeLengths, Flatten, Sum;
    if coded {
      CodedFramesAreUnique(w, a, b);
    } else {
      EqualLengthsFlatten(a, |a[0]|);
      EqualLengthsFlatten(b, |b[0]|);
      DivExact(|a|, |a[0]|);
      DivExact(|a|, |b[0]|);
      SameCuts(a, b);
    }
  }

  lemma CodedFramesAreUnique(w: seq<byte>, a: seq<seq<byte>>, b: seq<seq<byte>>)
    requires |a| == |b| && CarriesFrames(w, true, a) && CarriesFrames(w, true, b)
    ensures a == b
  {
    hide EncodeLengths, Flatten, Sum;
    var n := |a|;
    var lengths := Lengths(a)[..n - 1];
    LengthsArePrefixFree(lengths, Lengths(b)[..n - 1], w);
    assert Lengths(b)[..n - 1] == lengths;
    assert Flatten(a) == w[|EncodeLengths(lengths)|..];
    assert Flatten(b) == w[|EncodeLengths(lengths)|..];
    FlattenLength(a);
    FlattenLength(b);
    assert Lengths(a) == lengths + [|a[n - 1]|] && Lengths(b) == lengths + [|b[n - 1]|];
    SumSnoc(lengths, |a[n - 1]|);
    SumSnoc(lengths, |b[n - 1]|);
    forall i | 0 <= i < n
      ensures |a[i]| == |b[i]|
    {
      assert i < n - 1 ==> |a[i]| == lengths[i] && |b[i]| == lengths[i];
    }
    SameCuts(a, b);
  }

  // ----- the check -----

  lemma NextLength(w: seq<byte>, n: nat, read: seq<nat>, lengths: seq<nat>)
    requires LengthsOk(read) && EncodeLengths(read) <= w && |read| < n - 1
    requires CodedLengths(w, n, lengths)
    ensures read + [lengths[|read|]] <= lengths
    ensures EncodeLength(lengths[|read|]) <= w[|EncodeLengths(read)|..]
    ensures |EncodeLengths(read)| + |EncodeLength(lengths[|read|])| <= |EncodeLengths(lengths)|
    ensures Sum(read) + lengths[|read|] <= Sum(lengths)
  {
    hide EncodeLength, EncodeLengths, Sum;
    var next := lengths[|read|];
    LengthsArePrefixFree(read, lengths, w);
    var rest := lengths[|read| + 1..];
    assert lengths == read + [next] + rest;
    EncodeLengthsAppend(read + [next], rest);
    EncodeLengthsSnoc(read, next);
    SumAppend(read + [next], rest);
    SumSnoc(read, next);
    var k := |EncodeLengths(read)|;
    assert EncodeLengths(lengths)[k..][..|EncodeLength(next)|] == EncodeLength(next);
    assert w[k..][..|EncodeLength(next)|] == EncodeLength(next);
  }

  lemma {:induction false} EncodeLengthsAppend(a: seq<nat>, b: seq<nat>)
    requires LengthsOk(a) && LengthsOk(b)
    ensures LengthsOk(a + b) && EncodeLengths(a + b) == EncodeLengths(a) + EncodeLengths(b)
  {
    hide EncodeLength;
    if a == [] {
      assert a + b == b;
    } else {
      assert (a + b)[1..] == a[1..] + b && (a + b)[0] == a[0];
      EncodeLengthsAppend(a[1..], b);
      assert EncodeLength(a[0]) + (EncodeLengths(a[1..]) + EncodeLengths(b)) == EncodeLengths(a) + EncodeLengths(b);
    }
  }

  lemma NoLengths()
    ensures EncodeLengths([]) == [] && Sum([]) == 0
  {
  }

  /** What the next field must be if the region carries `n` frames at all. */
  lemma NextField(w: seq<byte>, n: nat, read: seq<nat>, lengths: seq<nat>)
    requires LengthsOk(read) && EncodeLengths(read) <= w && |read| < n - 1
    requires CodedLengths(w, n, lengths)
    ensures var field := w[|EncodeLengths(read)|..];
            && field != [] && (field[0] >= 252 ==> |field| >= 2)
            && Sum(read) + DecodeLength(field).0 <= |field| - DecodeLength(field).1
  {
    NextLength(w, n, read, lengths);
    LengthFieldIsPrefixFree(lengths[|read|], w[|EncodeLengths(read)|..]);
  }

  /** Reading one field extends the lengths read so far. */
  lemma ReadField(w: seq<byte>, read: seq<nat>)
    requires LengthsOk(read) && EncodeLengths(read) <= w
    requires var field := w[|EncodeLengths(read)|..]; field != [] && (field[0] >= 252 ==> |field| >= 2)
    ensures var (length, used) := DecodeLength(w[|EncodeLengths(read)|..]);
            && LengthsOk(read + [length])
            && EncodeLengths(read + [length]) <= w
            && |EncodeLengths(read + [length])| == |EncodeLengths(read)| + used
            && Sum(read + [length]) == Sum(read) + length
  {
    hide EncodeLengths, Sum;
    var k := |EncodeLengths(read)|;
    var field := w[k..];
    var (length, used) := DecodeLength(field);
    LengthCodeIsBijective(length, field);
    EncodeLengthsSnoc(read, length);
    SumSnoc(read, length);
    assert w[..k + used] == w[..k] + field[..used];
  }

  /** The loop over the coded lengths, with its early exit on `declaredBytes`. */
  method MatchesCodedFrames(packet: seq<byte>, start: nat, end: nat, frames: nat) returns (ok: bool)
    requires frames > 0 && start <= end <= |packet|
    ensures ok <==> Region(packet[start..end], true, frames)
  {
    hide EncodeLengths, EncodeLength, CarriesFrames;
    ghost var w := packet[start..end];
    ghost var lengths: seq<nat> := [];
    NoLengths();
    CodedFramesIffLengths(w, frames);
    var offset, declaredBytes := start, 0;
    for index := 0 to frames - 1
      invariant start <= offset <= end
      invariant |lengths| == index && LengthsOk(lengths)
      invariant EncodeLengths(lengths) <= w && offset == start + |EncodeLengths(lengths)|
      invariant declaredBytes == Sum(lengths) <= end - offset
    {
      ghost var field := w[|EncodeLengths(lengths)|..];
      assert field == packet[offset..end];
      forall ls | CodedLengths(w, frames, ls)
        ensures field != [] && (field[0] >= 252 ==> |field| >= 2)
        ensures declaredBytes + DecodeLength(field).0 <= |field| - DecodeLength(field).1
      {
        NextField(w, frames, lengths, ls);
      }
      if offset >= end {
        return false;
      }
      var length: nat := packet[offset];
      offset := offset + 1;
      if length >= 252 {
        if offset >= end {
          return false;
        }
        length := length + 4 * packet[offset] as int;
        offset := offset + 1;
      }
      ReadField(w, lengths);
      lengths := lengths + [length];
      declaredBytes := declaredBytes + length;
      if declaredBytes > end - offset {
        return false;
      }
    }
    var lastFrameBytes := end - offset - declaredBytes;
    forall ls | CodedLengths(w, frames, ls)
      ensures ls == lengths
    {
      LengthsArePrefixFree(lengths, ls, w);
    }
    assert CodedLengths(w, frames, lengths) <==> 0 <= lastFrameBytes <= MAX_FRAME_BYTES;
    return lastFrameBytes >= 0 && lastFrameBytes <= MAX_FRAME_BYTES;
  }

  /** The padding loop: where the frames start and end, or that no padding fits. */
  method ReadPadding(packet: seq<byte>) returns (ok: bool, offset: nat, end: nat, ghost padding: Padding)
    requires |packet| >= 2
    ensures ok ==> padding.Padding? && PaddedBy(packet, padding, offset, end)
    ensures !ok ==> forall p, o: nat, e: nat :: PaddedBy(packet, p, o, e) ==> p.NoPadding?
  {
    offset, end, padding := 2, |packet|, NoPadding;
    ghost var chain := 0;
    var paddingByte := 255;
    while paddingByte == 255
      invariant 2 <= offset <= end <= |packet|
      invariant paddingByte == 255 ==>
                  && offset == 2 + chain && end == |packet| - 254 * chain
                  && forall i :: 2 <= i < offset ==> packet[i] == 255
      invariant paddingByte < 255 ==> padding.Padding? && PaddedBy(packet, padding, offset, end)
      decreases |packet| - offset, paddingByte
    {
      forall p, o: nat, e: nat | PaddedBy(packet, p, o, e) && p.Padding?
        ensures o > offset && e <= end
        ensures packet[offset] == 255 ==> o > offset + 1 && e <= end - 254
        ensures packet[offset] < 255 ==> o == offset + 1 && e == end - packet[offset]
      {
        PaddingStep(packet, p, o, e, chain);
      }
      if offset >= end {
        return false, offset, end, padding;
      }
      paddingByte := packet[offset];
      offset := offset + 1;
      var newEnd := end - if paddingByte == 255 then 254 else paddingByte;
      if offset > newEnd {
        return false, offset, end, padding;
      }
      end := newEnd;
      if paddingByte == 255 {
        chain := chain + 1;
      } else {
        padding := Padding(chain, paddingByte, packet[end..]);
        assert packet[2..offset] == Repeat(255, chain) + [paddingByte];
      }
    }
    ok := true;
  }

  lemma PaddingStep(packet: seq<byte>, p: Padding, o: nat, e: nat, chain: nat)
    requires PaddedBy(packet, p, o, e) && p.Padding?
    requires 2 + chain <= |packet| && forall i :: 2 <= i < 2 + chain ==> packet[i] == 255
    ensures o > 2 + chain && e <= |packet| - 254 * chain
    ensures packet[2 + chain] == 255 ==> o > 3 + chain && e <= |packet| - 254 * (chain + 1)
    ensures packet[2 + chain] < 255 ==> o == 3 + chain && e == |packet| - 254 * chain - packet[2 + chain]
  {
    PaddingBytes(packet, p, o, e);
    assert p.chain >= chain;
  }

  method MatchesOpusPacketFraming(packet: seq<byte>) returns (ok: bool)
    ensures ok <==> IsOpusPacket(packet)
  {
    hide WellFormed, Encode, CarriesFrames, PaddedBy, SamplesPerFrame, Region;
    forall p | WellFormed(p) && Encode(p) == packet
      ensures HeadIsPlausible(packet, p)
    {
      EncodingIsPlausible(p);
    }
    if |packet| == 0 || |packet| > MAX_AUDIO_PACKET_BYTES {
      return false;
    }
    var code := packet[0] % 4;
    var samplesPerFrame := SamplesPerFrame(packet[0] / 8);
    SamplesBound(packet[0] / 8);
    if code == 0 {
      LayoutDecides(packet, 1, false, NoPadding, 1, |packet|);
      EqualRegion(packet, 1, |packet|, 1);
      return |packet| - 1 <= MAX_FRAME_BYTES;
    }
    if code == 1 {
      LayoutDecides(packet, 2, false, NoPadding, 1, |packet|);
      EqualRegion(packet, 1, |packet|, 2);
      return (|packet| - 1) % 2 == 0 && (|packet| - 1) / 2 <= MAX_FRAME_BYTES;
    }
    var offset, end, frames := 1, |packet|, 2;
    ghost var padding := NoPadding;
    if code == 3 {
      if offset >= end {
        return false;
      }
      var control := packet[1];
      offset := 2;
      frames := control % 64;
      if frames == 0 || samplesPerFrame * frames > MAX_PACKET_SAMPLES {
        return false;
      }
      if control / 64 % 2 != 0 {
        var fits;
        fits, offset, end, padding := ReadPadding(packet);
        if !fits {
          return false;
        }
      } else {
        NoPaddingFits(packet);
      }
      if control < 128 {
        LayoutDecides(packet, frames, false, padding, offset, end);
        EqualRegion(packet, offset, end, frames);
        return (end - offset) % frames == 0 && (end - offset) / frames <= MAX_FRAME_BYTES;
      }
    }
    LayoutDecides(packet, frames, true, padding, offset, end);
    ok := MatchesCodedFrames(packet, offset, end, frames);
  }

  ghost predicate HeadIsPlausible(packet: seq<byte>, p: Packet)
  {
    packet != [] && (packet[0] % 4 == 3 ==>
      && |packet| >= 2
      && packet[1] % 64 > 0
      && SamplesPerFrame(packet[0] / 8) * (packet[1] % 64) <= MAX_PACKET_SAMPLES
      && (packet[1] / 64 % 2 == 1) == p.padding.Padding?
      && exists offset: nat, end: nat :: PaddedBy(packet, p.padding, offset, end))
  }

  lemma EncodingIsPlausible(p: Packet)
    requires WellFormed(p)
    ensures HeadIsPlausible(Encode(p), p)
  {
    hide WellFormed, Encode, CarriesFrames, PaddedBy, SamplesPerFrame;
    EncodingHasLayout(p);
  }

  lemma NoPaddingFits(packet: seq<byte>)
    requires |packet| >= 2
    ensures PaddedBy(packet, NoPadding, 2, |packet|)
  {
    assert packet[2..2] == [];
  }

  lemma EqualRegion(packet: seq<byte>, offset: nat, end: nat, n: nat)
    requires offset <= end <= |packet| && n > 0
    ensures Region(packet[offset..end], false, n) <==> (end - offset) % n == 0 && (end - offset) / n <= MAX_FRAME_BYTES
  {
    EqualFramesIffDivisible(packet[offset..end], n);
  }

  lemma SamplesBound(config: nat)
    requires config < 32
    ensures 120 <= SamplesPerFrame(config) <= 2880
  {
    assert Pow2(0) == 1 && Pow2(1) == 2 && Pow2(2) == 4 && Pow2(3) == 8;
    assert config % 4 == 0 || config % 4 == 1 || config % 4 == 2 || config % 4 == 3;
    assert config % 2 == 0 || config % 2 == 1;
  }
}
