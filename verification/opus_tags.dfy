/**
 * The comment header of an Ogg Opus stream (RFC 7845 section 5.2) as a serialiser, and the
 * check `matchesOpusTags`, which accepts exactly its image.
 */
module OpusTags {
  import opened Bytes

  function Magic(): (m: seq<byte>)
    ensures |m| == 8
  {
    [0x4f, 0x70, 0x75, 0x73, 0x54, 0x61, 0x67, 0x73] // "OpusTags"
  }

  function EncodeU32LE(n: nat): (s: seq<byte>)
    requires n < 0x1_0000_0000
    ensures |s| == 4
  {
    [n % 0x100, n / 0x100 % 0x100, n / 0x1_0000 % 0x100, n / 0x100_0000]
  }

  lemma BytesOfNumber(n: int, a: int, b: int, c: int, d: int)
    requires 0 <= a < 0x100 && 0 <= b < 0x100 && 0 <= c < 0x100 && 0 <= d < 0x100
    requires n == a + 0x100 * b + 0x1_0000 * c + 0x100_0000 * d
    ensures n % 0x100 == a && n / 0x100 % 0x100 == b && n / 0x1_0000 % 0x100 == c && n / 0x100_0000 == d
  {
    assert n / 0x100 == b + 0x100 * c + 0x1_0000 * d;
    assert n / 0x1_0000 == c + 0x100 * d;
  }

  lemma NumberOfBytes(n: nat)
    requires n < 0x1_0000_0000
    ensures U32LE(EncodeU32LE(n), 0) == n
  {
    QuotientOfQuotient(n);
    QuotientOfQuotient(n / 0x100);
  }

  lemma QuotientOfQuotient(n: nat)
    ensures n / 0x100 / 0x100 == n / 0x1_0000
  {
    var q := n / 0x100;
    var r := q / 0x100;
    assert n == 0x1_0000 * r + (0x100 * (q - 0x100 * r) + (n - 0x100 * q));
  }

  lemma BytesOfU32LE(s: seq<byte>)
    requires |s| == 4
    ensures EncodeU32LE(U32LE(s, 0)) == s
  {
    BytesOfNumber(U32LE(s, 0), s[0], s[1], s[2], s[3]);
  }

  /** One length-prefixed text. */
  function Prefixed(text: seq<byte>): seq<byte>
    requires |text| < 0x1_0000_0000
  {
    EncodeU32LE(|text|) + text
  }

  predicate TextsOk(texts: seq<seq<byte>>)
  {
    forall i :: 0 <= i < |texts| ==> |texts[i]| < 0x1_0000_0000
  }

  function PrefixedAll(texts: seq<seq<byte>>): seq<byte>
    requires TextsOk(texts)
  {
    if texts == [] then [] else Prefixed(texts[0]) + PrefixedAll(texts[1..])
  }

  /** Vendor, comments, and whatever the encoder left after them. */
  function Encode(vendor: seq<byte>, comments: seq<seq<byte>>, rest: seq<byte>): seq<byte>
    requires |vendor| < 0x1_0000_0000 && TextsOk(comments) && |comments| < 0x1_0000_0000
  {
    Magic() + Prefixed(vendor) + EncodeU32LE(|comments|) + PrefixedAll(comments) + rest
  }

  ghost predicate IsOpusTags(packet: seq<byte>)
  {
    exists vendor, comments, rest ::
      && |vendor| < 0x1_0000_0000 && TextsOk(comments) && |comments| < 0x1_0000_0000
      && packet == Encode(vendor, comments, rest)
  }

  // ----- reading texts back -----

  /** `count` length-prefixed texts start at `offset`. */
  predicate TextsAt(s: seq<byte>, offset: nat, count: nat)
    requires offset <= |s|
    decreases count
  {
    count > 0 ==>
      && offset + 4 <= |s|
      && offset + 4 + U32LE(s, offset) <= |s|
      && TextsAt(s, offset + 4 + U32LE(s, offset), count - 1)
  }

  lemma U32LEAt(s: seq<byte>, offset: nat)
    requires offset + 4 <= |s|
    ensures EncodeU32LE(U32LE(s, offset)) == s[offset..offset + 4]
  {
    hide EncodeU32LE;
    BytesOfU32LE(s[offset..offset + 4]);
    assert U32LE(s[offset..offset + 4], 0) == U32LE(s, offset);
  }

  lemma U32LEOfPrefix(s: seq<byte>, offset: nat, n: nat)
    requires offset <= |s| && n < 0x1_0000_0000 && EncodeU32LE(n) <= s[offset..]
    ensures offset + 4 <= |s| && U32LE(s, offset) == n
  {
    hide EncodeU32LE;
    NumberOfBytes(n);
    var e := EncodeU32LE(n);
    assert forall i :: 0 <= i < 4 ==> s[offset + i] == s[offset..][i] == e[i];
  }

  lemma {:induction false} TextsAreRead(s: seq<byte>, offset: nat, texts: seq<seq<byte>>)
    requires offset <= |s| && TextsOk(texts)
    requires PrefixedAll(texts) <= s[offset..]
    ensures TextsAt(s, offset, |texts|)
    decreases texts
  {
    hide EncodeU32LE, U32LE;
    if texts != [] {
      var n := |texts[0]|;
      DropPrefix(Prefixed(texts[0]), PrefixedAll(texts[1..]), s[offset..]);
      DropPrefix(EncodeU32LE(n), texts[0], s[offset..]);
      U32LEOfPrefix(s, offset, n);
      assert s[offset..][|Prefixed(texts[0])|..] == s[offset + 4 + n..];
      TextsAreRead(s, offset + 4 + n, texts[1..]);
    }
  }

  lemma {:induction false} ReadTexts(s: seq<byte>, offset: nat, count: nat) returns (texts: seq<seq<byte>>, end: nat)
    requires offset <= |s| && TextsAt(s, offset, count)
    ensures |texts| == count && TextsOk(texts)
    ensures offset <= end <= |s| && s[offset..end] == PrefixedAll(texts)
    decreases count
  {
    hide EncodeU32LE, U32LE;
    if count == 0 {
      return [], offset;
    }
    var n := U32LE(s, offset);
    var more;
    more, end := ReadTexts(s, offset + 4 + n, count - 1);
    var text := s[offset + 4..offset + 4 + n];
    U32LEAt(s, offset);
    texts := [text] + more;
    assert texts[1..] == more;
    assert s[offset..end] == s[offset..offset + 4] + text + s[offset + 4 + n..end];
    assert Prefixed(text) == s[offset..offset + 4] + text;
  }

  lemma {:induction false} TextsNeedRoom(s: seq<byte>, offset: nat, count: nat)
    requires offset <= |s| && TextsAt(s, offset, count)
    ensures count <= (|s| - offset) / 4
    decreases count
  {
    hide U32LE;
    if count > 0 {
      TextsNeedRoom(s, offset + 4 + U32LE(s, offset), count - 1);
    }
  }

  /** The layout the checks look for, field by field. */
  predicate FieldsFit(packet: seq<byte>)
  {
    && |packet| >= 16
    && packet[..8] == Magic()
    && U32LE(packet, 8) <= |packet| - 16
    && TextsAt(packet, 16 + U32LE(packet, 8), U32LE(packet, 12 + U32LE(packet, 8)))
  }

  lemma FieldsFitIffTags(packet: seq<byte>)
    ensures FieldsFit(packet) <==> IsOpusTags(packet)
  {
    hide EncodeU32LE, U32LE, PrefixedAll;
    if FieldsFit(packet) {
      var v := U32LE(packet, 8);
      var count := U32LE(packet, 12 + v);
      var vendor := packet[12..12 + v];
      var comments, end := ReadTexts(packet, 16 + v, count);
      U32LEAt(packet, 8);
      U32LEAt(packet, 12 + v);
      assert packet == packet[..8] + (packet[8..12] + vendor) + packet[12 + v..16 + v] + packet[16 + v..end] + packet[end..];
      assert packet == Encode(vendor, comments, packet[end..]);
    }
    forall vendor, comments, rest |
      && |vendor| < 0x1_0000_0000 && TextsOk(comments) && |comments| < 0x1_0000_0000
      && packet == Encode(vendor, comments, rest)
      ensures FieldsFit(packet)
    {
      TagsFit(packet, vendor, comments, rest);
    }
  }

  lemma TagsFit(packet: seq<byte>, vendor: seq<byte>, comments: seq<seq<byte>>, rest: seq<byte>)
    requires |vendor| < 0x1_0000_0000 && TextsOk(comments) && |comments| < 0x1_0000_0000
    requires packet == Encode(vendor, comments, rest)
    ensures FieldsFit(packet)
  {
    hide EncodeU32LE, U32LE, PrefixedAll;
    var v := |vendor|;
    assert packet[..8] == Magic();
    assert packet[8..] == EncodeU32LE(v) + (vendor + EncodeU32LE(|comments|) + PrefixedAll(comments) + rest);
    U32LEOfPrefix(packet, 8, v);
    assert packet[12 + v..] == EncodeU32LE(|comments|) + (PrefixedAll(comments) + rest);
    U32LEOfPrefix(packet, 12 + v, |comments|);
    assert packet[16 + v..] == PrefixedAll(comments) + rest;
    TextsAreRead(packet, 16 + v, comments);
  }

  /** `matchesOpusTags`. */
  method MatchesOpusTags(packet: seq<byte>) returns (ok: bool)
    ensures ok <==> IsOpusTags(packet)
  {
    hide U32LE;
    FieldsFitIffTags(packet);
    hide IsOpusTags;
    if |packet| < 16 || packet[..8] != Magic() {
      return false;
    }
    var vendorLength := U32LE(packet, 8);
    if vendorLength > |packet| - 16 {
      return false;
    }
    var offset := 12 + vendorLength;
    var count := U32LE(packet, offset);
    offset := offset + 4;
    if count > (|packet| - offset) / 4 {
      if TextsAt(packet, offset, count) {
        TextsNeedRoom(packet, offset, count);
      }
      return false;
    }
    for index := 0 to count
      invariant 0 <= offset <= |packet|
      invariant FieldsFit(packet) <==> TextsAt(packet, offset, count - index)
    {
      if offset + 4 > |packet| {
        return false;
      }
      var length := U32LE(packet, offset);
      offset := offset + 4;
      if length > |packet| - offset {
        return false;
      }
      offset := offset + length;
    }
    return true;
  }
}
