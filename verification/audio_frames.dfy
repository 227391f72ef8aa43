/** Byte regions that are concatenations of frames which announce their own length. */
module FrameWalks {
  import opened Bytes
  import opened Wrappers

  /** The length of the frame that a byte string starts with, if it starts with one. */
  type Cut = seq<byte> -> Option<nat>

  predicate IsFrame(cut: Cut, f: seq<byte>)
  {
    f != [] && cut(f) == Some(|f|)
  }

  /** A cut looks at nothing beyond its frame. */
  ghost predicate Local(cut: Cut)
  {
    && (forall f, w :: IsFrame(cut, f) && f <= w ==> cut(w) == Some(|f|))
    && (forall w :: cut(w).Some? ==> cut(w).value <= |w| && IsFrame(cut, w[..cut(w).value]))
  }

  predicate AllFrames(cut: Cut, frames: seq<seq<byte>>)
  {
    forall i :: 0 <= i < |frames| ==> IsFrame(cut, frames[i])
  }

  predicate IsSplit(cut: Cut, region: seq<byte>, frames: seq<seq<byte>>)
  {
    AllFrames(cut, frames) && Flatten(frames) == region
  }

  ghost predicate Accepted(cut: Cut, region: seq<byte>, cap: nat)
  {
    exists frames :: IsSplit(cut, region, frames) && 0 < |frames| < cap
  }

  /** Every split of the region starts with the frames walked so far. */
  ghost predicate Forced(cut: Cut, region: seq<byte>, walked: seq<seq<byte>>)
  {
    forall frames :: IsSplit(cut, region, frames) ==> walked <= frames
  }

  ghost predicate Walking(cut: Cut, region: seq<byte>, offset: nat, walked: seq<seq<byte>>)
  {
    && offset <= |region| && AllFrames(cut, walked) && Flatten(walked) == region[..offset]
    && Forced(cut, region, walked)
  }

  lemma WalkStarts(cut: Cut, region: seq<byte>)
    ensures Walking(cut, region, 0, [])
  {
  }

  lemma NextIsForced(cut: Cut, region: seq<byte>, offset: nat, walked: seq<seq<byte>>, frames: seq<seq<byte>>)
    requires Local(cut) && Walking(cut, region, offset, walked) && offset < |region|
    requires IsSplit(cut, region, frames)
    ensures |walked| < |frames| && cut(region[offset..]) == Some(|frames[|walked|]|)
    ensures frames[|walked|] == region[offset..][..|frames[|walked|]|]
  {
    var n := |walked|;
    assert frames == walked + frames[n..];
    FlattenAppend(walked, frames[n..]);
    assert region[offset..] == Flatten(frames[n..]);
    assert frames[n..][0] == frames[n] && frames[n] <= region[offset..];
    assert IsFrame(cut, frames[n]);
  }

  lemma WalkStops(cut: Cut, region: seq<byte>, offset: nat, walked: seq<seq<byte>>, cap: nat)
    requires Local(cut) && Walking(cut, region, offset, walked) && offset < |region|
    requires cut(region[offset..]) == None
    ensures !Accepted(cut, region, cap)
  {
    hide Local, Walking, IsSplit;
    forall frames | IsSplit(cut, region, frames)
      ensures false
    {
      NextIsForced(cut, region, offset, walked, frames);
    }
  }

  lemma TakeNext(region: seq<byte>, offset: nat, n: nat)
    requires offset + n <= |region|
    ensures region[offset..][..n] == region[offset..offset + n]
    ensures region[..offset] + region[offset..offset + n] == region[..offset + n]
  {
  }

  lemma StillForced(cut: Cut, region: seq<byte>, offset: nat, walked: seq<seq<byte>>, frame: seq<byte>)
    requires Local(cut) && Walking(cut, region, offset, walked) && offset < |region|
    requires cut(region[offset..]) == Some(|frame|) && frame <= region[offset..]
    ensures Forced(cut, region, walked + [frame])
  {
    hide Local, IsSplit;
    forall frames | IsSplit(cut, region, frames)
      ensures walked + [frame] <= frames
    {
      NextIsForced(cut, region, offset, walked, frames);
      assert frames[|walked|] == region[offset..][..|frame|] == frame;
      assert frames[..|walked| + 1] == walked + [frame];
    }
  }

  lemma CutGivesFrame(cut: Cut, w: seq<byte>)
    requires Local(cut) && cut(w).Some?
    ensures 0 < cut(w).value <= |w| && IsFrame(cut, w[..cut(w).value])
  {
  }

  lemma WalkGoesOn(cut: Cut, region: seq<byte>, offset: nat, walked: seq<seq<byte>>) returns (frame: seq<byte>)
    requires Local(cut) && Walking(cut, region, offset, walked) && offset < |region|
    requires cut(region[offset..]).Some?
    ensures var n := cut(region[offset..]).value; 0 < n && offset + n <= |region| && frame == region[offset..offset + n]
    ensures Walking(cut, region, offset + cut(region[offset..]).value, walked + [frame])
  {
    hide Forced, Local, IsFrame;
    var n := cut(region[offset..]).value;
    CutGivesFrame(cut, region[offset..]);
    TakeNext(region, offset, n);
    frame := region[offset..offset + n];
    FlattenSnoc(walked, frame);
    StillForced(cut, region, offset, walked, frame);
  }

  lemma NothingLeft(cut: Cut, frames: seq<seq<byte>>)
    requires AllFrames(cut, frames)
    ensures Flatten(frames) == [] <==> frames == []
  {
    if frames != [] {
      assert IsFrame(cut, frames[0]);
    }
  }

  lemma FramesFrom(cut: Cut, frames: seq<seq<byte>>, n: nat)
    requires AllFrames(cut, frames) && n <= |frames|
    ensures AllFrames(cut, frames[n..])
  {
  }

  lemma WholeRegion(cut: Cut, walked: seq<seq<byte>>, frames: seq<seq<byte>>)
    requires AllFrames(cut, frames) && walked <= frames && Flatten(frames) == Flatten(walked)
    ensures frames == walked
  {
    var rest := frames[|walked|..];
    assert frames == walked + rest;
    FlattenAppend(walked, rest);
    FramesFrom(cut, frames, |walked|);
    NothingLeft(cut, rest);
  }

  lemma WalkEnds(cut: Cut, region: seq<byte>, offset: nat, walked: seq<seq<byte>>, cap: nat)
    requires Walking(cut, region, offset, walked) && (offset == |region| || |walked| >= cap)
    ensures Accepted(cut, region, cap) <==> offset == |region| && 0 < |walked| < cap
  {
    if offset == |region| {
      assert region[..offset] == region;
      assert IsSplit(cut, region, walked);
      forall frames | IsSplit(cut, region, frames)
        ensures frames == walked
      {
        WholeRegion(cut, walked, frames);
      }
    }
  }

  /** A region is cut into frames in at most one way. */
  lemma {:induction false} SplitIsUnique(cut: Cut, a: seq<seq<byte>>, b: seq<seq<byte>>)
    requires Local(cut) && AllFrames(cut, a) && AllFrames(cut, b) && Flatten(a) == Flatten(b)
    ensures a == b
  {
    hide Local;
    NothingLeft(cut, a);
    NothingLeft(cut, b);
    if a != [] {
      var w := Flatten(a);
      FirstFrame(cut, a);
      FirstFrame(cut, b);
      assert a[0] == w[..|a[0]|] && b[0] == w[..|b[0]|];
      assert w[|a[0]|..] == Flatten(a[1..]) && w[|b[0]|..] == Flatten(b[1..]);
      SplitIsUnique(cut, a[1..], b[1..]);
    }
  }

  lemma FirstFrame(cut: Cut, frames: seq<seq<byte>>)
    requires Local(cut) && AllFrames(cut, frames) && frames != []
    ensures cut(Flatten(frames)) == Some(|frames[0]|)
  {
    assert IsFrame(cut, frames[0]) && frames[0] <= Flatten(frames);
  }

  /** The walk that every frame check makes: true exactly for whole frames within the cap. */
  method WalkFrames(cut: Cut, region: seq<byte>, cap: nat) returns (ok: bool)
    requires Local(cut)
    ensures ok <==> Accepted(cut, region, cap)
  {
    hide Local, Walking, Accepted;
    var offset, frames := 0, 0;
    ghost var walked: seq<seq<byte>> := [];
    WalkStarts(cut, region);
    while offset < |region| && frames < cap
      invariant 0 <= offset <= |region| && frames == |walked|
      invariant Walking(cut, region, offset, walked)
    {
      var frameBytes := cut(region[offset..]);
      if frameBytes == None {
        WalkStops(cut, region, offset, walked, cap);
        return false;
      }
      ghost var frame := WalkGoesOn(cut, region, offset, walked);
      walked := walked + [frame];
      offset := offset + frameBytes.value;
      frames := frames + 1;
    }
    WalkEnds(cut, region, offset, walked, cap);
    return offset == |region| && frames > 0 && frames < cap;
  }
}

/** The AMR, ADTS and MPEG walkers of the media checks. */
module AudioFrames {
  import opened AdifHeaders
  import opened Bytes
  import opened Wrappers
  import opened FrameWalks

  const MAX_FRAMES: nat := 100000

  // ----- AMR (RFC 4867 section 5.3) -----

  const NB_FRAME_BITS: seq<nat> := [95, 103, 118, 134, 148, 159, 204, 244, 39]
  const WB_FRAME_BITS: seq<nat> := [132, 177, 253, 285, 317, 365, 397, 461, 477, 40]

  function NbMagic(): (m: seq<byte>)
    ensures |m| == 6
  {
    [0x23, 0x21, 0x41, 0x4d, 0x52, 0x0a] // "#!AMR\n"
  }

  function WbMagic(): (m: seq<byte>)
    ensures |m| == 9
  {
    [0x23, 0x21, 0x41, 0x4d, 0x52, 0x2d, 0x57, 0x42, 0x0a] // "#!AMR-WB\n"
  }

  function SpeechBits(wideband: bool, frameType: nat): Option<nat>
  {
    if wideband then
      if frameType <= 9 then Some(WB_FRAME_BITS[frameType]) else if frameType == 14 || frameType == 15 then Some(0) else None
    else
      if frameType <= 8 then Some(NB_FRAME_BITS[frameType]) else if frameType == 15 then Some(0) else None
  }

  /** One frame: its type, its quality bit, and as many speech bits as the type has. */
  datatype AmrFrame = AmrFrame(frameType: nat, quality: bool, bits: seq<bool>)

  predicate IsAmrFrame(wideband: bool, f: AmrFrame)
  {
    f.frameType < 16 && SpeechBits(wideband, f.frameType) == Some(|f.bits|)
  }

  function BitsToByte(bits: seq<bool>): (n: nat)
    requires |bits| <= 8
    ensures n < Pow2(|bits|)
    decreases |bits|
  {
    if bits == [] then 0 else 2 * BitsToByte(bits[..|bits| - 1]) + if bits[|bits| - 1] then 1 else 0
  }

  function ByteToBits(n: nat, count: nat): (bits: seq<bool>)
    requires n < Pow2(count)
    ensures |bits| == count
  {
    if count == 0 then [] else ByteToBits(n / 2, count - 1) + [n % 2 == 1]
  }

  /** The last, partly filled byte: its bits first, then zeros. */
  function PaddedByte(bits: seq<bool>): (b: byte)
    requires |bits| <= 8
  {
    Pow2Values();
    BitsToByte(bits) * Pow2(8 - |bits|)
  }

  function Pack(bits: seq<bool>): seq<byte>
    decreases |bits|
  {
    if bits == [] then []
    else if |bits| <= 8 then [PaddedByte(bits)]
    else [PaddedByte(bits[..8])] + Pack(bits[8..])
  }

  function Unpack(bytes: seq<byte>, count: nat): seq<bool>
    requires |bytes| == (count + 7) / 8
    decreases count
  {
    Pow2Values();
    if count == 0 then []
    else if count <= 8 then ByteToBits(Shifted(bytes[0], 8 - count), count)
    else ByteToBits(bytes[0], 8) + Unpack(bytes[1..], count - 8)
  }

  /** A byte without its low bits. */
  function Shifted(b: byte, low: nat): (n: nat)
    requires low < 8
    ensures n < Pow2(8 - low)
  {
    ShiftIsBounded(b, low);
    b as int / Pow2(low)
  }

  lemma ShiftIsBounded(b: byte, low: nat)
    requires low < 8
    ensures 0 <= b as int / Pow2(low) < Pow2(8 - low)
  {
    hide Pow2;
    Pow2Values();
    match low {
      case 0 =>
      case 1 =>
      case 2 =>
      case 3 =>
      case 4 =>
      case 5 =>
      case 6 =>
      case _ =>
    }
  }

  predicate PaddingIsZero(bytes: seq<byte>, count: nat)
    requires |bytes| == (count + 7) / 8
  {
    count > 0 ==> bytes[|bytes| - 1] as int % Pow2(8 * |bytes| - count) == 0
  }

  lemma {:induction false} BitsByteBits(bits: seq<bool>)
    requires |bits| <= 8
    ensures ByteToBits(BitsToByte(bits), |bits|) == bits
    decreases |bits|
  {
    hide Pow2;
    if bits != [] {
      var init, last := bits[..|bits| - 1], bits[|bits| - 1];
      BitsByteBits(init);
      LastBit(BitsToByte(init), last);
      OneBitMore(bits);
      assert bits == init + [last];
    }
  }

  lemma LastBit(v: nat, last: bool)
    ensures var n := 2 * v + if last then 1 else 0; n / 2 == v && (n % 2 == 1 <==> last)
  {
  }

  lemma OneBitMore(bits: seq<bool>)
    requires 0 < |bits| <= 8
    ensures var init, last := bits[..|bits| - 1], bits[|bits| - 1];
            && BitsToByte(bits) == 2 * BitsToByte(init) + (if last then 1 else 0)
            && ByteToBits(BitsToByte(bits), |bits|) == ByteToBits(BitsToByte(init), |init|) + [last]
  {
    hide Pow2;
    var init, last := bits[..|bits| - 1], bits[|bits| - 1];
    LastBit(BitsToByte(init), last);
    var n := BitsToByte(bits);
    assert n / 2 == BitsToByte(init);
    hide BitsToByte;
    assert ByteToBits(n, |bits|) == ByteToBits(n / 2, |bits| - 1) + [n % 2 == 1];
  }

  lemma {:induction false} ByteBitsByte(n: nat, count: nat)
    requires n < Pow2(count) && count <= 8
    ensures BitsToByte(ByteToBits(n, count)) == n
    decreases count
  {
    if count > 0 {
      var bits := ByteToBits(n, count);
      assert bits[..count - 1] == ByteToBits(n / 2, count - 1);
      ByteBitsByte(n / 2, count - 1);
    }
  }

  lemma PaddedShifts(bits: seq<bool>)
    requires 0 < |bits| <= 8
    ensures Shifted(PaddedByte(bits), 8 - |bits|) == BitsToByte(bits)
    ensures PaddedByte(bits) as int % Pow2(8 - |bits|) == 0
  {
    hide BitsToByte;
    Pow2Values();
  }

  lemma ShiftedPads(b: byte, count: nat)
    requires 0 < count <= 8 && b as int % Pow2(8 - count) == 0
    ensures PaddedByte(ByteToBits(Shifted(b, 8 - count), count)) == b
  {
    hide BitsToByte, ByteToBits;
    Pow2Values();
    ByteBitsByte(Shifted(b, 8 - count), count);
  }

  /** Packing bits and reading them back. */
  lemma {:induction false} UnpackPack(bits: seq<bool>)
    ensures |Pack(bits)| == (|bits| + 7) / 8
    ensures Unpack(Pack(bits), |bits|) == bits && PaddingIsZero(Pack(bits), |bits|)
    decreases |bits|
  {
    hide BitsToByte, ByteToBits, PaddedByte, Shifted, Pow2;
    if 0 < |bits| <= 8 {
      OneByteUnpacks(bits);
    } else if bits != [] {
      var packed := Pack(bits);
      assert packed == [PaddedByte(bits[..8])] + Pack(bits[8..]);
      hide Pack, Unpack, PaddingIsZero;
      UnpackPack(bits[8..]);
      OneByteUnpacks(bits[..8]);
      MoreBytes(packed, |bits|);
      assert packed[1..] == Pack(bits[8..]);
    }
  }

  lemma MoreBytes(bytes: seq<byte>, count: nat)
    requires count > 8 && |bytes| == (count + 7) / 8
    ensures Unpack(bytes, count) == ByteToBits(Shifted(bytes[0], 0), 8) + Unpack(bytes[1..], count - 8)
    ensures PaddingIsZero(bytes, count) <==> PaddingIsZero(bytes[1..], count - 8)
  {
    hide ByteToBits, Shifted, Pow2;
    WholeByte(bytes[0]);
  }

  lemma OneByteUnpacks(bits: seq<bool>)
    requires 0 < |bits| <= 8
    ensures ByteToBits(Shifted(PaddedByte(bits), 8 - |bits|), |bits|) == bits
    ensures PaddedByte(bits) as int % Pow2(8 - |bits|) == 0
  {
    hide BitsToByte, ByteToBits, PaddedByte, Shifted, Pow2;
    PaddedShifts(bits);
    BitsByteBits(bits);
  }

  lemma WholeByte(b: byte)
    ensures Shifted(b, 0) == b
  {
    Pow2Values();
  }

  lemma {:induction false} PackUnpack(bytes: seq<byte>, count: nat)
    requires |bytes| == (count + 7) / 8 && PaddingIsZero(bytes, count)
    ensures Pack(Unpack(bytes, count)) == bytes && |Unpack(bytes, count)| == count
    decreases count
  {
    hide BitsToByte, ByteToBits, PaddedByte, Shifted;
    Pow2Values();
    if 0 < count <= 8 {
      ShiftedPads(bytes[0], count);
      assert bytes == [bytes[0]];
    } else if count > 8 {
      PackUnpack(bytes[1..], count - 8);
      ShiftedPads(bytes[0], 8);
      WholeByte(bytes[0]);
      var bits := Unpack(bytes, count);
      assert bits[..8] == ByteToBits(bytes[0], 8) && bits[8..] == Unpack(bytes[1..], count - 8);
      assert bytes == [bytes[0]] + bytes[1..];
    }
  }

  function AmrHeader(f: AmrFrame): byte
  {
    f.frameType % 16 * 8 + if f.quality then 4 else 0
  }

  function SerialiseAmr(f: AmrFrame): seq<byte>
  {
    [AmrHeader(f)] + Pack(f.bits)
  }

  /** The frame check of `matchesAmrStructure`. */
  function AmrCut(wideband: bool): Cut
  {
    w => AmrLength(wideband, w)
  }

  function AmrLength(wideband: bool, w: seq<byte>): Option<nat>
  {
    if |w| < 1 || w[0] >= 128 || w[0] % 4 != 0 then None
    else
      var speechBits := SpeechBits(wideband, w[0] as int / 8 % 16);
      if speechBits == None then None
      else
        var payloadBytes := (speechBits.value + 7) / 8;
        if |w| < 1 + payloadBytes then None
        else
          var paddingBits := payloadBytes * 8 - speechBits.value;
          if payloadBytes > 0 && w[payloadBytes] as int % Pow2(paddingBits) != 0 then None
          else Some(1 + payloadBytes)
  }

  function ParseAmr(wideband: bool, s: seq<byte>): AmrFrame
    requires IsFrame(AmrCut(wideband), s)
  {
    var frameType := s[0] as int / 8 % 16;
    AmrFrame(frameType, s[0] / 4 % 2 == 1, Unpack(s[1..], SpeechBits(wideband, frameType).value))
  }

  lemma AmrExtends(wideband: bool, f: seq<byte>, w: seq<byte>)
    requires f <= w && AmrLength(wideband, f) == Some(|f|)
    ensures AmrLength(wideband, w) == Some(|f|)
  {
    hide Pow2, SpeechBits;
    assert w[0] == f[0] && w[|f| - 1] == f[|f| - 1];
  }

  lemma AmrTakes(wideband: bool, w: seq<byte>)
    requires AmrLength(wideband, w).Some?
    ensures var n := AmrLength(wideband, w).value; 0 < n <= |w| && AmrLength(wideband, w[..n]) == Some(n)
  {
    hide Pow2, SpeechBits;
    var n := AmrLength(wideband, w).value;
    assert w[..n][0] == w[0] && w[..n][n - 1] == w[n - 1];
  }

  lemma AmrIsLocal(wideband: bool)
    ensures Local(AmrCut(wideband))
  {
    hide AmrLength;
    forall f, w | IsFrame(AmrCut(wideband), f) && f <= w
      ensures AmrCut(wideband)(w) == Some(|f|)
    {
      AmrExtends(wideband, f, w);
    }
    forall w | AmrCut(wideband)(w).Some?
      ensures AmrCut(wideband)(w).value <= |w| && IsFrame(AmrCut(wideband), w[..AmrCut(wideband)(w).value])
    {
      AmrTakes(wideband, w);
    }
  }

  /** The bytes the AMR check takes for a frame are exactly the serialised frames, and reading inverts writing. */
  lemma AmrFramesAreSerialised(wideband: bool, s: seq<byte>)
    ensures IsFrame(AmrCut(wideband), s) <==> exists f :: IsAmrFrame(wideband, f) && SerialiseAmr(f) == s
    ensures IsFrame(AmrCut(wideband), s) ==>
              IsAmrFrame(wideband, ParseAmr(wideband, s)) && SerialiseAmr(ParseAmr(wideband, s)) == s
  {
    hide Pow2, Pack, Unpack;
    if IsFrame(AmrCut(wideband), s) {
      AmrFrameReads(wideband, s);
      assert IsAmrFrame(wideband, ParseAmr(wideband, s));
    }
    if f :| IsAmrFrame(wideband, f) && SerialiseAmr(f) == s {
      AmrFrameWrites(wideband, f);
    }
  }

  lemma HeaderByte(b: byte)
    requires b < 128 && b % 4 == 0
    ensures b as int / 8 % 16 * 8 + (if b / 4 % 2 == 1 then 4 else 0) == b as int
  {
  }

  lemma AmrFrameReads(wideband: bool, s: seq<byte>)
    requires IsFrame(AmrCut(wideband), s)
    ensures IsAmrFrame(wideband, ParseAmr(wideband, s)) && SerialiseAmr(ParseAmr(wideband, s)) == s
  {
    hide Pow2, Pack, Unpack, SpeechBits;
    var frameType := s[0] as int / 8 % 16;
    var count := SpeechBits(wideband, frameType).value;
    assert count > 0 ==> s[1..][|s| - 2] == s[|s| - 1];
    PackUnpack(s[1..], count);
    HeaderByte(s[0]);
    assert s == [s[0]] + s[1..];
  }

  lemma AmrFrameWrites(wideband: bool, f: AmrFrame)
    requires IsAmrFrame(wideband, f)
    ensures IsFrame(AmrCut(wideband), SerialiseAmr(f)) && ParseAmr(wideband, SerialiseAmr(f)) == f
  {
    hide Pow2, Pack, Unpack, SpeechBits, AmrHeader;
    var s := SerialiseAmr(f);
    UnpackPack(f.bits);
    HeaderReads(f);
    assert s[0] == AmrHeader(f) && s[1..] == Pack(f.bits);
    PayloadEnds(s, Pack(f.bits));
  }

  lemma HeaderReads(f: AmrFrame)
    requires f.frameType < 16
    ensures var b := AmrHeader(f); b < 128 && b % 4 == 0 && b as int / 8 % 16 == f.frameType
    ensures AmrHeader(f) / 4 % 2 == 1 <==> f.quality
  {
  }

  lemma PayloadEnds(s: seq<byte>, payload: seq<byte>)
    requires |s| == 1 + |payload| && s[1..] == payload
    ensures payload != [] ==> s[|payload|] == payload[|payload| - 1]
  {
    assert payload != [] ==> s[1..][|payload| - 1] == s[|payload|];
  }

  function SerialiseAll(frames: seq<AmrFrame>): seq<seq<byte>>
  {
    if frames == [] then [] else [SerialiseAmr(frames[0])] + SerialiseAll(frames[1..])
  }

  lemma {:induction false} SerialisedAreFrames(wideband: bool, frames: seq<AmrFrame>)
    requires forall f :: f in frames ==> IsAmrFrame(wideband, f)
    ensures AllFrames(AmrCut(wideband), SerialiseAll(frames)) && |SerialiseAll(frames)| == |frames|
    ensures forall i :: 0 <= i < |frames| ==> ParseAmr(wideband, SerialiseAll(frames)[i]) == frames[i]
    decreases |frames|
  {
    hide SerialiseAmr, ParseAmr, AmrCut;
    if frames != [] {
      SerialisedAreFrames(wideband, frames[1..]);
      AmrFrameWrites(wideband, frames[0]);
    }
  }

  /** Serialise any frame list, walk the bytes: every split found reads back as that list. */
  lemma AmrRoundTrip(wideband: bool, frames: seq<AmrFrame>, parts: seq<seq<byte>>)
    requires forall f :: f in frames ==> IsAmrFrame(wideband, f)
    ensures IsSplit(AmrCut(wideband), Flatten(SerialiseAll(frames)), SerialiseAll(frames))
    ensures IsSplit(AmrCut(wideband), Flatten(SerialiseAll(frames)), parts) ==>
              |parts| == |frames| && forall i :: 0 <= i < |frames| ==> ParseAmr(wideband, parts[i]) == frames[i]
  {
    hide SerialiseAmr, ParseAmr, AmrCut, SerialiseAll, Local;
    SerialisedAreFrames(wideband, frames);
    AmrIsLocal(wideband);
    if IsSplit(AmrCut(wideband), Flatten(SerialiseAll(frames)), parts) {
      SplitIsUnique(AmrCut(wideband), parts, SerialiseAll(frames));
    }
  }

  ghost predicate IsAmrFile(file: seq<byte>)
  {
    || (WbMagic() <= file && Accepted(AmrCut(true), file[9..], MAX_FRAMES))
    || (NbMagic() <= file && Accepted(AmrCut(false), file[6..], MAX_FRAMES))
  }

  /** `matchesAmrStructure`. */
  method MatchesAmrStructure(file: seq<byte>) returns (ok: bool)
    ensures ok <==> IsAmrFile(file)
  {
    hide Accepted, AmrCut, Local;
    if |file| <= 6 {
      assert NbMagic() <= file ==> file[6..] == [];
      NoFrames(AmrCut(false), MAX_FRAMES);
      return false;
    }
    var wideband := |file| >= 9 && file[..9] == WbMagic();
    var narrowband := file[..6] == NbMagic();
    assert wideband ==> file[5] == 0x2d;
    assert narrowband ==> file[5] == 0x0a;
    if !wideband && !narrowband {
      return false;
    }
    var offset := if wideband then 9 else 6;
    AmrIsLocal(wideband);
    ok := WalkFrames(AmrCut(wideband), file[offset..], MAX_FRAMES);
  }

  lemma NoFrames(cut: Cut, cap: nat)
    ensures !Accepted(cut, [], cap)
  {
    forall frames | IsSplit(cut, [], frames)
      ensures frames == []
    {
      NothingLeft(cut, frames);
    }
  }

  // ----- AAC in ADTS -----

  /** One ADTS frame; `channel` and `tail` are the header bits that the check does not look at. */
  datatype AdtsFrame = AdtsFrame(
    id: nat, protectionAbsent: bool, profile: nat, sampling: nat, channel: nat, tail: nat, rest: seq<byte>)

  predicate IsAdtsFrame(f: AdtsFrame)
  {
    && f.id < 2 && f.profile < 4 && f.sampling < 13 && f.channel < 256 && f.tail < 8192
    && |f.rest| > (if f.protectionAbsent then 0 else 2) && 7 + |f.rest| < 8192
  }

  function SerialiseAdts(f: AdtsFrame): seq<byte>
    requires IsAdtsFrame(f)
  {
    var n := 7 + |f.rest|;
    [0xff, 0xf0 + 8 * f.id + (if f.protectionAbsent then 1 else 0), f.profile * 64 + f.sampling * 4 + f.channel / 64,
     f.channel % 64 * 4 + n / 2048, n / 8 % 256, n % 8 * 32 + f.tail / 256, f.tail % 256] + f.rest
  }

  function AdtsCut(): Cut
  {
    w => AdtsLength(w)
  }

  /** The frame check of `matchesAacStructure`. */
  function AdtsLength(w: seq<byte>): Option<nat>
  {
    if |w| < 7 || w[0] != 0xff || w[1] / 16 != 15 || w[1] / 2 % 4 != 0 then None
    else if w[2] / 4 % 16 >= 13 then None
    else
      var headerBytes := if w[1] % 2 == 1 then 7 else 9;
      var frameBytes := w[3] as int % 4 * 2048 + w[4] as int * 8 + w[5] as int / 32;
      if frameBytes <= headerBytes || frameBytes > |w| then None else Some(frameBytes)
  }

  lemma AdtsReadsHeader(v: seq<byte>, w: seq<byte>)
    requires |v| >= 7 && |w| >= 7 && v[..7] == w[..7]
    requires AdtsLength(v).Some? && AdtsLength(v).value <= |w|
    ensures AdtsLength(w) == AdtsLength(v)
  {
    assert v[..7][1] == w[..7][1] && v[..7][2] == w[..7][2] && v[..7][3] == w[..7][3];
    assert v[..7][0] == w[..7][0] && v[..7][4] == w[..7][4] && v[..7][5] == w[..7][5];
  }

  lemma AdtsBounds(w: seq<byte>)
    requires AdtsLength(w).Some?
    ensures 7 < AdtsLength(w).value <= |w|
  {
  }

  lemma AdtsIsLocal()
    ensures Local(AdtsCut())
  {
    hide AdtsLength;
    forall f, w | IsFrame(AdtsCut(), f) && f <= w
      ensures AdtsCut()(w) == Some(|f|)
    {
      AdtsBounds(f);
      assert w[..7] == f[..7];
      AdtsReadsHeader(f, w);
    }
    forall w | AdtsCut()(w).Some?
      ensures AdtsCut()(w).value <= |w| && IsFrame(AdtsCut(), w[..AdtsCut()(w).value])
    {
      AdtsBounds(w);
      AdtsReadsHeader(w, w[..AdtsLength(w).value]);
    }
  }

  function ParseAdts(s: seq<byte>): AdtsFrame
    requires |s| >= 7
  {
    AdtsFrame(s[1] as int / 8 % 2, s[1] % 2 == 1, s[2] as int / 64, s[2] as int / 4 % 16,
              s[2] as int % 4 * 64 + s[3] as int / 4, s[5] as int % 32 * 256 + s[6] as int, s[7..])
  }

  /** The frame length in its three header bytes. */
  lemma LengthField(n: nat, high: nat, low: nat)
    requires n < 8192 && high < 64 && low < 32
    ensures var b3, b4, b5 := high * 4 + n / 2048, n / 8 % 256, n % 8 * 32 + low;
            && b3 < 256 && b5 < 256
            && b3 % 4 * 2048 + b4 * 8 + b5 / 32 == n && b3 / 4 == high && b5 % 32 == low
  {
    assert n == n / 2048 * 2048 + n / 8 % 256 * 8 + n % 8;
  }

  lemma LengthFieldReads(b3: nat, b4: nat, b5: nat)
    requires b3 < 256 && b4 < 256 && b5 < 256
    ensures var n := b3 % 4 * 2048 + b4 * 8 + b5 / 32;
            && n < 8192 && n / 2048 == b3 % 4 && n / 8 % 256 == b4 && n % 8 == b5 / 32
  {
  }

  lemma ProfileField(profile: nat, sampling: nat, high: nat)
    requires profile < 4 && sampling < 16 && high < 4
    ensures var b := profile * 64 + sampling * 4 + high; b < 256 && b / 64 == profile && b / 4 % 16 == sampling && b % 4 == high
  {
  }

  lemma SyncField(id: nat, absent: nat)
    requires id < 2 && absent < 2
    ensures var b := 0xf0 + 8 * id + absent; b < 256 && b / 16 == 15 && b / 2 % 4 == 0 && b / 8 % 2 == id && b % 2 == absent
  {
  }

  lemma AdtsFrameReads(s: seq<byte>)
    requires IsFrame(AdtsCut(), s)
    ensures IsAdtsFrame(ParseAdts(s)) && SerialiseAdts(ParseAdts(s)) == s
  {
    LengthFieldReads(s[3], s[4], s[5]);
    AdtsFields(s);
    AdtsBytes(s);
  }

  lemma AdtsFields(s: seq<byte>)
    requires IsFrame(AdtsCut(), s)
    ensures |s| > 7 && IsAdtsFrame(ParseAdts(s))
  {
  }

  lemma SplitFields(high: nat, low: nat)
    ensures low < 64 ==> (high * 64 + low) / 64 == high && (high * 64 + low) % 64 == low
    ensures low < 256 ==> (high * 256 + low) / 256 == high && (high * 256 + low) % 256 == low
  {
  }

  lemma SyncFieldReads(b: nat)
    requires b < 256 && b / 16 == 15 && b / 2 % 4 == 0
    ensures 0xf0 + 8 * (b / 8 % 2) + (if b % 2 == 1 then 1 else 0) == b
  {
  }

  /** The channel field, cut over the third and fourth byte. */
  lemma ChannelFieldReads(b2: nat, b3: nat)
    requires b2 < 256 && b3 < 256
    ensures var channel := b2 % 4 * 64 + b3 / 4;
            && b2 / 64 * 64 + b2 / 4 % 16 * 4 + channel / 64 == b2
            && channel % 64 * 4 + b3 % 4 == b3
  {
    SplitFields(b2 % 4, b3 / 4);
  }

  /** The last thirteen header bits, cut over the sixth and seventh byte. */
  lemma TailFieldReads(b5: nat, b6: nat)
    requires b5 < 256 && b6 < 256
    ensures var tail := b5 % 32 * 256 + b6; b5 / 32 * 32 + tail / 256 == b5 && tail % 256 == b6
  {
    SplitFields(b5 % 32, b6);
  }

  lemma AdtsBytes(s: seq<byte>)
    requires IsFrame(AdtsCut(), s) && |s| > 7 && IsAdtsFrame(ParseAdts(s))
    ensures SerialiseAdts(ParseAdts(s)) == s
  {
    var f := ParseAdts(s);
    var b1: nat, b2: nat, b3: nat, b4: nat, b5: nat, b6: nat := s[1], s[2], s[3], s[4], s[5], s[6];
    assert s[0] == 0xff && b1 / 16 == 15 && b1 / 2 % 4 == 0 && 7 + |f.rest| == b3 % 4 * 2048 + b4 * 8 + b5 / 32;
    assert f.id == b1 / 8 % 2 && f.protectionAbsent == (b1 % 2 == 1) && f.profile == b2 / 64 && f.sampling == b2 / 4 % 16;
    assert f.channel == b2 % 4 * 64 + b3 / 4 && f.tail == b5 % 32 * 256 + b6 && f.rest == s[7..];
    hide *;
    LengthFieldReads(b3, b4, b5);
    ChannelFieldReads(b2, b3);
    TailFieldReads(b5, b6);
    SyncFieldReads(b1);
    AdtsAssembled(s, f);
  }

  lemma AdtsAssembled(s: seq<byte>, f: AdtsFrame)
    requires |s| > 7 && IsAdtsFrame(f) && f.rest == s[7..] && s[0] == 0xff
    requires 0xf0 + 8 * f.id + (if f.protectionAbsent then 1 else 0) == s[1] as int
    requires f.profile * 64 + f.sampling * 4 + f.channel / 64 == s[2] as int
    requires f.channel % 64 * 4 + (7 + |f.rest|) / 2048 == s[3] as int
    requires (7 + |f.rest|) / 8 % 256 == s[4] as int
    requires (7 + |f.rest|) % 8 * 32 + f.tail / 256 == s[5] as int && f.tail % 256 == s[6] as int
    ensures SerialiseAdts(f) == s
  {
    assert s == [s[0], s[1], s[2], s[3], s[4], s[5], s[6]] + s[7..];
  }

  lemma AdtsFrameWrites(f: AdtsFrame)
    requires IsAdtsFrame(f)
    ensures IsFrame(AdtsCut(), SerialiseAdts(f))
  {
    var s, n := SerialiseAdts(f), 7 + |f.rest|;
    LengthField(n, f.channel % 64, f.tail / 256);
    ProfileField(f.profile, f.sampling, f.channel / 64);
    SyncField(f.id, if f.protectionAbsent then 1 else 0);
    assert |s| == n;
  }

  /** The bytes the ADTS check takes for a frame are exactly the serialised frames. */
  lemma AdtsFramesAreSerialised(s: seq<byte>)
    ensures IsFrame(AdtsCut(), s) <==> exists f :: IsAdtsFrame(f) && SerialiseAdts(f) == s
  {
    hide SerialiseAdts, IsAdtsFrame, AdtsCut;
    if IsFrame(AdtsCut(), s) {
      AdtsFrameReads(s);
    }
    if f :| IsAdtsFrame(f) && SerialiseAdts(f) == s {
      AdtsFrameWrites(f);
    }
  }

  /** `matchesAacStructure`: an ADIF header, or nothing but ADTS frames. */
  method MatchesAacStructure(file: seq<byte>) returns (ok: bool)
    ensures ok <==> if AdifMagic() <= file && |file| >= 5 then IsAdifFile(file)
                   else Accepted(AdtsCut(), file, MAX_FRAMES)
  {
    hide Accepted, AdtsCut, Local, IsAdifFile;
    AdtsIsLocal();
    if |file| < 5 {
      ShortIsNoFrame(file);
      return false;
    }
    if file[..4] == AdifMagic() {
      ok := MatchesAdifStructure(file);
      return;
    }
    ok := WalkFrames(AdtsCut(), file, MAX_FRAMES);
  }

  lemma ShortIsNoFrame(file: seq<byte>)
    requires |file| < 5
    ensures !Accepted(AdtsCut(), file, MAX_FRAMES)
  {
    forall frames | IsSplit(AdtsCut(), file, frames)
      ensures frames == []
    {
      if frames != [] {
        ShortFirst(frames);
      }
    }
  }

  lemma ShortFirst(frames: seq<seq<byte>>)
    requires AllFrames(AdtsCut(), frames) && frames != []
    ensures |Flatten(frames)| > 7
  {
    hide AdtsLength;
    assert IsFrame(AdtsCut(), frames[0]);
    AdtsBounds(frames[0]);
  }

  // ----- MPEG audio -----

  const MPEG1_LAYER1_BITRATES: seq<nat> := [0, 32, 64, 96, 128, 160, 192, 224, 256, 288, 320, 352, 384, 416, 448, 0]
  const MPEG1_LAYER2_BITRATES: seq<nat> := [0, 32, 48, 56, 64, 80, 96, 112, 128, 160, 192, 224, 256, 320, 384, 0]
  const MPEG1_LAYER3_BITRATES: seq<nat> := [0, 32, 40, 48, 56, 64, 80, 96, 112, 128, 160, 192, 224, 256, 320, 0]
  const MPEG2_LAYER1_BITRATES: seq<nat> := [0, 32, 48, 56, 64, 80, 96, 112, 128, 144, 160, 176, 192, 224, 256, 0]
  const MPEG2_LAYER23_BITRATES: seq<nat> := [0, 8, 16, 24, 32, 40, 48, 56, 64, 80, 96, 112, 128, 144, 160, 0]

  function BitrateKbps(mpeg1: bool, layer: nat, index: nat): nat
    requires index < 16
  {
    if mpeg1 then
      if layer == 1 then MPEG1_LAYER1_BITRATES[index]
      else if layer == 2 then MPEG1_LAYER2_BITRATES[index]
      else MPEG1_LAYER3_BITRATES[index]
    else if layer == 1 then MPEG2_LAYER1_BITRATES[index]
    else MPEG2_LAYER23_BITRATES[index]
  }

  function SampleRate(version: nat, index: nat): (rate: nat)
    requires index < 3
    ensures rate in {44100, 48000, 32000, 22050, 24000, 16000, 11025, 12000, 8000}
    ensures version == 3 ==> rate >= 32000
    ensures version != 3 ==> rate <= 24000
  {
    var base := if index == 0 then 44100 else if index == 1 then 48000 else 32000;
    if version == 3 then base else if version == 2 then base / 2 else base / 4
  }

  /** `mpegAudioFrameLength`. */
  function MpegFrameLength(h: seq<byte>): Option<nat>
  {
    if |h| < 4 || h[0] != 0xff || h[1] < 0xe0 then None
    else
      var version, layerBits := h[1] as int / 8 % 4, h[1] as int / 2 % 4;
      var bitrateIndex, sampleRateIndex := h[2] as int / 16, h[2] as int / 4 % 4;
      var padding := h[2] as int / 2 % 2;
      if version == 1 || layerBits == 0 || bitrateIndex == 0 || bitrateIndex == 15 || sampleRateIndex == 3 || h[3] % 4 == 2
      then None
      else Some(LengthOf(version == 3, 4 - layerBits, BitrateKbps(version == 3, 4 - layerBits, bitrateIndex) * 1000,
                         SampleRate(version, sampleRateIndex), padding))
  }

  /** Rounded down. */
  function Divided(x: nat, y: nat): nat
    requires y > 0
  {
    x / y
  }

  function LengthOf(mpeg1: bool, layer: nat, bitrate: nat, sampleRate: nat, padding: nat): nat
    requires sampleRate > 0
  {
    if layer == 1 then (Divided(12 * bitrate, sampleRate) + padding) * 4
    else if layer == 3 && !mpeg1 then Divided(72 * bitrate, sampleRate) + padding
    else Divided(144 * bitrate, sampleRate) + padding
  }

  function MpegCut(): Cut
  {
    w => MpegLength(w)
  }

  function MpegLength(w: seq<byte>): Option<nat>
  {
    var n := MpegFrameLength(w);
    if n == None || n.value > |w| then None else n
  }

  lemma MpegReadsHeader(f: seq<byte>, w: seq<byte>)
    requires |f| >= 4 && f <= w
    ensures MpegFrameLength(f) == MpegFrameLength(w)
  {
    hide BitrateKbps, SampleRate, LengthOf;
  }

  lemma BitratesInRange(mpeg1: bool, layer: nat, index: nat)
    requires 1 <= index < 15 && 1 <= layer <= 3
    ensures var kbps := BitrateKbps(mpeg1, layer, index);
            if mpeg1 then 32 <= kbps <= (if layer == 1 then 448 else 384)
            else if layer == 1 then 32 <= kbps <= 256 else 8 <= kbps <= 160
  {
  }

  lemma LengthInRange(mpeg1: bool, layer: nat, kbps: nat, sampleRate: nat, padding: nat)
    requires 1 <= layer <= 3 && padding < 2
    requires if mpeg1 then 32 <= kbps <= (if layer == 1 then 448 else 384)
             else if layer == 1 then 32 <= kbps <= 256 else 8 <= kbps <= 160
    requires sampleRate in (if mpeg1 then {44100, 48000, 32000} else {22050, 24000, 16000, 11025, 12000, 8000})
    ensures 24 <= LengthOf(mpeg1, layer, kbps * 1000, sampleRate, padding) <= 2881
  {
  }

  /** Every MPEG frame has 24 to 2,881 bytes, so the walk always moves and ends. */
  lemma MpegFramesAreBounded(h: seq<byte>)
    requires MpegFrameLength(h).Some?
    ensures 24 <= MpegFrameLength(h).value <= 2881
  {
    hide BitrateKbps, LengthOf;
    var version, layer := h[1] as int / 8 % 4, 4 - h[1] as int / 2 % 4;
    var kbps := BitrateKbps(version == 3, layer, h[2] as int / 16);
    BitratesInRange(version == 3, layer, h[2] as int / 16);
    LengthInRange(version == 3, layer, kbps, SampleRate(version, h[2] as int / 4 % 4), h[2] as int / 2 % 2);
  }

  lemma MpegIsLocal()
    ensures Local(MpegCut())
  {
    hide MpegFrameLength;
    forall f, w | IsFrame(MpegCut(), f) && f <= w
      ensures MpegCut()(w) == Some(|f|)
    {
      MpegFramesAreBounded(f);
      MpegReadsHeader(f, w);
    }
    forall w | MpegCut()(w).Some?
      ensures MpegCut()(w).value <= |w| && IsFrame(MpegCut(), w[..MpegCut()(w).value])
    {
      MpegFramesAreBounded(w);
      MpegReadsHeader(w[..MpegLength(w).value], w);
    }
  }

  function Id3v2(): (m: seq<byte>)
    ensures |m| == 3
  {
    [0x49, 0x44, 0x33] // "ID3"
  }

  function Id3v1(): (m: seq<byte>)
    ensures |m| == 3
  {
    [0x54, 0x41, 0x47] // "TAG"
  }

  /** Where the audio starts: after an ID3v2 tag, whose size is four seven-bit digits. */
  function AudioStart(file: seq<byte>): Option<nat>
  {
    if |file| < 4 then None
    else if file[..3] != Id3v2() then Some(0)
    else if |file| < 10 || !(2 <= file[3] <= 4) || file[4] == 0xff
            || file[6] >= 128 || file[7] >= 128 || file[8] >= 128 || file[9] >= 128 then None
    else
      var payload := file[6] as int * 0x20_0000 + file[7] as int * 0x4000 + file[8] as int * 0x80 + file[9] as int;
      var footer := if file[3] == 4 && file[5] / 16 % 2 == 1 then 10 else 0;
      if 10 + payload + footer > |file| - 4 then None else Some(10 + payload + footer)
  }

  /** Where it ends: before an ID3v1 tag in the last 128 bytes. */
  function AudioEnd(file: seq<byte>, start: nat): (end: nat)
    requires start <= |file|
    ensures start <= end <= |file|
  {
    if |file| - start >= 128 && file[|file| - 128..|file| - 125] == Id3v1() then |file| - 128 else |file|
  }

  /** Whole frames and nothing else between the tags. */
  ghost predicate IsMpegFile(file: seq<byte>)
  {
    var start := AudioStart(file);
    start.Some? && Accepted(MpegCut(), file[start.value..AudioEnd(file, start.value)], MAX_FRAMES)
  }

  /** `matchesMpegAudioStructure`. */
  method MatchesMpegAudioStructure(file: seq<byte>) returns (ok: bool)
    ensures ok <==> IsMpegFile(file)
  {
    hide Accepted, MpegCut, Local;
    MpegIsLocal();
    var start := AudioStart(file);
    if start == None {
      return false;
    }
    ok := WalkFrames(MpegCut(), file[start.value..AudioEnd(file, start.value)], MAX_FRAMES);
  }
}

/** The bit reader of the ADIF header check. */
module BitReaders {
  import opened Bytes
  import opened Wrappers

  function Bit(bytes: seq<byte>, at: nat): nat
    requires at < 8 * |bytes|
  {
    bytes[at / 8] as int / Pow2(7 - at % 8) % 2
  }

  /** The big-endian number in bits from .. from + length. */
  function Number(bytes: seq<byte>, from: nat, length: nat): nat
    requires from + length <= 8 * |bytes|
    decreases length
  {
    if length == 0 then 0 else 2 * Number(bytes, from, length - 1) + Bit(bytes, from + length - 1)
  }

  lemma {:induction false} NumberFits(bytes: seq<byte>, from: nat, length: nat)
    requires from + length <= 8 * |bytes|
    ensures Number(bytes, from, length) < Pow2(length)
    decreases length
  {
    hide Bit;
    if length > 0 {
      NumberFits(bytes, from, length - 1);
      BitFits(bytes, from + length - 1);
    }
  }

  lemma BitFits(bytes: seq<byte>, at: nat)
    requires at < 8 * |bytes|
    ensures Bit(bytes, at) < 2
  {
    hide Pow2;
  }

  lemma Doubled(n: nat, w: nat)
    ensures n * (2 * w) == 2 * (n * w)
  {
  }

  /** Two reads in a row read the same bits as one. */
  lemma {:induction false} ReadsCompose(bytes: seq<byte>, from: nat, a: nat, b: nat)
    requires from + a + b <= 8 * |bytes|
    ensures Number(bytes, from, a + b) == Number(bytes, from, a) * Pow2(b) + Number(bytes, from + a, b)
    decreases b
  {
    hide Bit;
    if b > 0 {
      ReadsCompose(bytes, from, a, b - 1);
      Doubled(Number(bytes, from, a), Pow2(b - 1));
    }
  }

  class BitReader {
    const bytes: seq<byte>
    var bitOffset: nat

    predicate Valid()
      reads this
    {
      bitOffset <= 8 * |bytes|
    }

    constructor (bytes: seq<byte>, startBitOffset: nat)
      requires startBitOffset <= 8 * |bytes|
      ensures Valid() && this.bytes == bytes && bitOffset == startBitOffset
    {
      this.bytes, bitOffset := bytes, startBitOffset;
    }

    /** `skip`: moves on, or stays put when the buffer is too short. */
    method Skip(length: int) returns (ok: bool)
      requires Valid()
      modifies this
      ensures Valid()
      ensures ok <==> length >= 0 && old(bitOffset) + length <= 8 * |bytes|
      ensures bitOffset == if ok then old(bitOffset) + length else old(bitOffset)
    {
      if length < 0 || bitOffset + length > 8 * |bytes| {
        return false;
      }
      bitOffset := bitOffset + length;
      return true;
    }

    /** `read`: up to 32 bits as a number; longer fields are only skipped and read as zero. */
    method Read(length: int) returns (value: Option<nat>)
      requires Valid()
      modifies this
      ensures Valid()
      ensures value.Some? <==> length >= 0 && old(bitOffset) + length <= 8 * |bytes|
      ensures bitOffset == if value.Some? then old(bitOffset) + length else old(bitOffset)
      ensures value.Some? ==> value.value == if length > 32 then 0 else Number(bytes, old(bitOffset), length)
    {
      if length < 0 || length > 32 || bitOffset + length > 8 * |bytes| {
        if length > 32 {
          var skipped := Skip(length);
          return if skipped then Some(0) else None;
        }
        return None;
      }
      var n: nat := 0;
      for index := 0 to length
        invariant n == Number(bytes, bitOffset, index)
      {
        n := n * 2 + Bit(bytes, bitOffset + index);
      }
      bitOffset := bitOffset + length;
      return Some(n);
    }

    /** `byteOffset`: whole bytes used. */
    method ByteOffset() returns (n: nat)
      ensures 8 * n - 8 < bitOffset <= 8 * n
    {
      n := (bitOffset + 7) / 8;
    }

    /** `alignToByte`: to the next byte boundary, which is still inside the buffer. */
    method AlignToByte()
      requires Valid()
      modifies this
      ensures Valid() && bitOffset % 8 == 0 && old(bitOffset) <= bitOffset < old(bitOffset) + 8
    {
      var remainder := bitOffset % 8;
      if remainder != 0 {
        bitOffset := bitOffset + (8 - remainder);
      }
    }
  }
}
