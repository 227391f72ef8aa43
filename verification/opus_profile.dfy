/**
 * Packets across Ogg pages: the lacing of RFC 3533 section 6 as a serialiser, its inverse as a
 * fold over segments, and the proof that the fold recovers the packets wherever pages break.
 */
module OggLacing {
  import opened Bytes

  function WholeSegments(k: nat): (r: seq<byte>)
    ensures |r| == k && forall i :: 0 <= i < k ==> r[i] == 255
  {
    Repeat(255, k)
  }

  function LacingOfPacket(packet: seq<byte>): (r: seq<byte>)
    ensures |r| == |packet| / 255 + 1
  {
    WholeSegments(|packet| / 255) + [|packet| % 255]
  }

  function LacingOfPackets(packets: seq<seq<byte>>): seq<byte>
  {
    if packets == [] then [] else LacingOfPacket(packets[0]) + LacingOfPackets(packets[1..])
  }

  /** Complete packets followed by the whole segments of an unfinished one. */
  ghost predicate IsLaced(lacing: seq<byte>, body: seq<byte>, packets: seq<seq<byte>>, pending: seq<byte>)
  {
    && |pending| % 255 == 0
    && lacing == LacingOfPackets(packets) + WholeSegments(|pending| / 255)
    && body == Flatten(packets) + pending
  }

  /** What has been reassembled: the packets so far and the bytes of the one in progress. */
  datatype Assembly = Assembly(packets: seq<seq<byte>>, pending: seq<byte>)

  function Feed(a: Assembly, segment: seq<byte>): Assembly
  {
    if |segment| == 255 then a.(pending := a.pending + segment)
    else Assembly(a.packets + [a.pending + segment], [])
  }

  function Total(lacing: seq<byte>): nat
  {
    if lacing == [] then 0 else lacing[0] + Total(lacing[1..])
  }

  /** Feed the segments that a lacing table cuts out of a body. */
  function FeedAll(a: Assembly, lacing: seq<byte>, body: seq<byte>): Assembly
    requires Total(lacing) == |body|
    decreases lacing
  {
    if lacing == [] then a else FeedAll(Feed(a, body[..lacing[0]]), lacing[1..], body[lacing[0]..])
  }

  const NOTHING := Assembly([], [])

  lemma {:induction false} TotalAppend(a: seq<byte>, b: seq<byte>)
    ensures Total(a + b) == Total(a) + Total(b)
  {
    if a == [] {
      assert a + b == b;
    } else {
      assert (a + b)[1..] == a[1..] + b;
      TotalAppend(a[1..], b);
    }
  }

  lemma {:induction false} LacingAppend(a: seq<seq<byte>>, b: seq<seq<byte>>)
    ensures LacingOfPackets(a + b) == LacingOfPackets(a) + LacingOfPackets(b)
  {
    hide LacingOfPacket;
    if a == [] {
      assert a + b == b;
    } else {
      assert (a + b)[1..] == a[1..] + b;
      LacingAppend(a[1..], b);
    }
  }

  lemma LacingSnoc(a: seq<seq<byte>>, packet: seq<byte>)
    ensures LacingOfPackets(a + [packet]) == LacingOfPackets(a) + LacingOfPacket(packet)
  {
    hide LacingOfPacket;
    LacingAppend(a, [packet]);
    assert [packet][1..] == [];
    assert LacingOfPackets([packet]) == LacingOfPacket(packet) + [];
  }

  /** Pages may break anywhere: feeding two stretches is feeding their concatenation. */
  lemma {:induction false} FeedAppend(a: Assembly, l1: seq<byte>, b1: seq<byte>, l2: seq<byte>, b2: seq<byte>)
    requires Total(l1) == |b1| && Total(l2) == |b2|
    ensures Total(l1 + l2) == |b1 + b2|
    ensures FeedAll(a, l1 + l2, b1 + b2) == FeedAll(FeedAll(a, l1, b1), l2, b2)
    decreases l1
  {
    hide Feed;
    TotalAppend(l1, l2);
    if l1 == [] {
      assert l1 + l2 == l2 && b1 + b2 == b2;
    } else {
      assert (l1 + l2)[0] == l1[0] && (l1 + l2)[1..] == l1[1..] + l2;
      assert (b1 + b2)[..l1[0]] == b1[..l1[0]] && (b1 + b2)[l1[0]..] == b1[l1[0]..] + b2;
      FeedAppend(Feed(a, b1[..l1[0]]), l1[1..], b1[l1[0]..], l2, b2);
    }
  }

  /** One more segment keeps the decomposition. */
  lemma FeedIsLaced(lacing: seq<byte>, body: seq<byte>, a: Assembly, segment: seq<byte>)
    requires IsLaced(lacing, body, a.packets, a.pending) && |segment| <= 255
    ensures var f := Feed(a, segment);
            IsLaced(lacing + [|segment|], body + segment, f.packets, f.pending)
  {
    hide LacingOfPackets, Flatten;
    var k := |a.pending| / 255;
    if |segment| == 255 {
      assert WholeSegments(k) + [255] == WholeSegments(k + 1);
    } else {
      var packet := a.pending + segment;
      assert LacingOfPacket(packet) == WholeSegments(k) + [|segment|];
      LacingSnoc(a.packets, packet);
      FlattenSnoc(a.packets, packet);
      assert WholeSegments(0) == [];
    }
  }

  lemma {:induction false} FeedAllIsLaced(l0: seq<byte>, b0: seq<byte>, a: Assembly, lacing: seq<byte>, body: seq<byte>)
    requires IsLaced(l0, b0, a.packets, a.pending) && Total(lacing) == |body|
    ensures var f := FeedAll(a, lacing, body); IsLaced(l0 + lacing, b0 + body, f.packets, f.pending)
    decreases lacing
  {
    hide Feed, IsLaced;
    if lacing == [] {
      assert l0 + lacing == l0 && b0 + body == b0;
    } else {
      var segment := body[..lacing[0]];
      FeedIsLaced(l0, b0, a, segment);
      FeedAllIsLaced(l0 + [lacing[0]], b0 + segment, Feed(a, segment), lacing[1..], body[lacing[0]..]);
      assert l0 + [lacing[0]] + lacing[1..] == l0 + lacing;
      assert b0 + segment + body[lacing[0]..] == b0 + body;
    }
  }

  /** The fold undoes one packet's lacing, whatever follows. */
  lemma {:induction false} FeedPacket(a: Assembly, packet: seq<byte>)
    ensures Total(LacingOfPacket(packet)) == |packet|
    ensures FeedAll(a, LacingOfPacket(packet), packet) == Assembly(a.packets + [a.pending + packet], [])
    decreases |packet|
  {
    var lacing := LacingOfPacket(packet);
    if |packet| < 255 {
      assert lacing == [|packet|] && lacing[1..] == [];
      assert packet[..|packet|] == packet;
    } else {
      var rest := packet[255..];
      assert lacing[0] == 255 && lacing[1..] == LacingOfPacket(rest);
      FeedPacket(Feed(a, packet[..255]), rest);
      assert a.pending + packet[..255] + rest == a.pending + packet;
    }
  }

  lemma FeedWhole(a: Assembly, segment: seq<byte>)
    requires |segment| == 255
    ensures Feed(a, segment) == a.(pending := a.pending + segment)
  {
  }

  lemma {:induction false} FeedPending(a: Assembly, k: nat, pending: seq<byte>)
    requires |pending| == 255 * k
    ensures Total(WholeSegments(k)) == |pending|
    ensures FeedAll(a, WholeSegments(k), pending) == a.(pending := a.pending + pending)
    decreases k
  {
    hide Feed;
    if k == 0 {
      assert WholeSegments(k) == [] && a.pending + pending == a.pending;
    } else {
      assert WholeSegments(k)[0] == 255 && WholeSegments(k)[1..] == WholeSegments(k - 1);
      FeedWhole(a, pending[..255]);
      FeedPending(Feed(a, pending[..255]), k - 1, pending[255..]);
      assert a.pending + pending[..255] + pending[255..] == a.pending + pending;
    }
  }

  lemma {:induction false} FeedPackets(packets: seq<seq<byte>>)
    ensures Total(LacingOfPackets(packets)) == |Flatten(packets)|
    ensures FeedAll(NOTHING, LacingOfPackets(packets), Flatten(packets)) == Assembly(packets, [])
    decreases |packets|
  {
    hide LacingOfPacket, FeedAll;
    if packets == [] {
      NothingToFeed();
    } else {
      var n := |packets| - 1;
      var init, last := packets[..n], packets[n];
      assert packets == init + [last];
      FeedPackets(init);
      LacingSnoc(init, last);
      FlattenSnoc(init, last);
      FeedPacket(Assembly(init, []), last);
      FeedAppend(NOTHING, LacingOfPackets(init), Flatten(init), LacingOfPacket(last), last);
      assert [] + last == last;
    }
  }

  lemma NothingToFeed()
    ensures FeedAll(NOTHING, [], []) == NOTHING
  {
  }

  /** The fold computes the RFC 3533 decomposition, which is therefore unique. */
  lemma ReassemblyInvertsLacing(lacing: seq<byte>, body: seq<byte>, packets: seq<seq<byte>>, pending: seq<byte>)
    ensures IsLaced(lacing, body, packets, pending)
            <==> Total(lacing) == |body| && FeedAll(NOTHING, lacing, body) == Assembly(packets, pending)
  {
    hide FeedAll, LacingOfPackets;
    if IsLaced(lacing, body, packets, pending) {
      var k := |pending| / 255;
      FeedPackets(packets);
      FeedPending(Assembly(packets, []), k, pending);
      FeedAppend(NOTHING, LacingOfPackets(packets), Flatten(packets), WholeSegments(k), pending);
      assert [] + pending == pending;
    }
    if Total(lacing) == |body| && FeedAll(NOTHING, lacing, body) == Assembly(packets, pending) {
      NothingIsLaced();
      FeedAllIsLaced([], [], NOTHING, lacing, body);
      assert [] + lacing == lacing && [] + body == body;
    }
  }

  lemma NothingIsLaced()
    ensures IsLaced([], [], [], [])
  {
  }

  /** Feeding never takes a packet back, and never shortens the one in progress. */
  ghost predicate Extends(a: Assembly, f: Assembly)
  {
    && a.packets <= f.packets
    && (|f.packets| > |a.packets| ==> a.pending <= f.packets[|a.packets|])
    && (f.packets == a.packets ==> a.pending <= f.pending)
  }

  lemma {:induction false} FeedAllExtends(a: Assembly, lacing: seq<byte>, body: seq<byte>)
    requires Total(lacing) == |body|
    ensures Extends(a, FeedAll(a, lacing, body))
    decreases lacing
  {
    if lacing != [] {
      FeedAllExtends(Feed(a, body[..lacing[0]]), lacing[1..], body[lacing[0]..]);
    }
  }
}

/**
 * The Ogg Opus upload profile: `OggOpusProfile` takes the pages of one stream in order.
 * A page list is acceptable exactly when it is a head page and then pages whose laced packets
 * are one comment header and Opus audio packets.
 */
module OggOpus {
  import opened Bytes
  import opened Wrappers
  import opened OggLacing
  import opened OpusTags
  import opened OpusPackets

  const MAX_TAG_BYTES: nat := 64 * 1024
  const MAX_AUDIO_PACKETS: nat := 100000

  // ----- one page -----

  function SegmentCount(page: seq<byte>): nat
    requires |page| >= 27
  {
    page[26]
  }

  function Lacing(page: seq<byte>): seq<byte>
    requires |page| >= 27 && |page| >= 27 + SegmentCount(page)
  {
    page[27..27 + SegmentCount(page)]
  }

  function PageBody(page: seq<byte>): seq<byte>
    requires |page| >= 27 && |page| >= 27 + SegmentCount(page)
  {
    page[27 + SegmentCount(page)..]
  }

  /** The header, the lacing table it announces, and exactly the body that the table announces. */
  predicate PageShape(page: seq<byte>): (ok: bool)
    ensures ok ==> |page| >= 27 && |page| >= 27 + SegmentCount(page)
  {
    |page| >= 27 && |page| >= 27 + SegmentCount(page) && Total(Lacing(page)) == |PageBody(page)|
  }

  function Serial(page: seq<byte>): nat
    requires |page| >= 27
  {
    U32LE(page, 14)
  }

  /** The signed 64-bit granule position. */
  function Granule(page: seq<byte>): int
    requires |page| >= 27
  {
    var low, high := U32LE(page, 6), U32LE(page, 10);
    if high < 0x8000_0000 then low + 0x1_0000_0000 * high else low + 0x1_0000_0000 * (high - 0x1_0000_0000)
  }

  predicate EndsStream(page: seq<byte>)
    requires |page| >= 27
  {
    page[5] / 4 % 2 == 1
  }

  predicate CompletesPacket(page: seq<byte>)
    requires PageShape(page)
  {
    exists i :: 0 <= i < |Lacing(page)| && Lacing(page)[i] < 255
  }

  function HeadMagic(): (m: seq<byte>)
    ensures |m| == 8
  {
    [0x4f, 0x70, 0x75, 0x73, 0x48, 0x65, 0x61, 0x64] // "OpusHead"
  }

  /** One whole identification packet: version 1, one channel, mapping family 0 (RFC 7845 section 5.1). */
  predicate IsHeadPage(page: seq<byte>)
    requires PageShape(page)
  {
    && page[5] == 2 && Granule(page) == 0
    && Lacing(page) == [19]
    && var body := PageBody(page);
       body[..8] == HeadMagic() && body[8] == 1 && body[9] == 1 && body[18] == 0
  }

  // ----- page lists -----

  predicate PagesShape(pages: seq<seq<byte>>)
  {
    forall i :: 0 <= i < |pages| ==> PageShape(pages[i])
  }

  /** The packets on the pages after the head page. */
  function Reassembly(pages: seq<seq<byte>>): Assembly
    requires PagesShape(pages)
  {
    if |pages| <= 1 then NOTHING
    else
      var page := pages[|pages| - 1];
      FeedAll(Reassembly(pages[..|pages| - 1]), Lacing(page), PageBody(page))
  }

  ghost predicate PacketsOk(packets: seq<seq<byte>>)
  {
    && |packets| <= MAX_AUDIO_PACKETS + 1
    && (packets != [] ==> |packets[0]| <= MAX_TAG_BYTES && IsOpusTags(packets[0]))
    && forall i :: 1 <= i < |packets| ==> IsOpusPacket(packets[i])
  }

  /** The unfinished packet still fits what it may become. */
  predicate PendingOk(a: Assembly)
  {
    |a.pending| <= if a.packets == [] then MAX_TAG_BYTES else MAX_AUDIO_PACKET_BYTES
  }

  predicate IsComplete(a: Assembly)
  {
    |a.packets| >= 2 && a.pending == []
  }

  /** What one more page must be like, given the packets before it. */
  ghost predicate PageFollows(before: Assembly, page: seq<byte>)
    requires PageShape(page)
  {
    var after := FeedAll(before, Lacing(page), PageBody(page));
    && SegmentCount(page) > 0
    && PacketsOk(after.packets) && PendingOk(after)
    && (before.packets == [] && after.packets != [] ==>
          |after.packets| == 1 && after.pending == [] && Granule(page) == 0)
    && (if CompletesPacket(page) then Granule(page) >= 0 else Granule(page) == -1)
    && (EndsStream(page) ==> IsComplete(after))
  }

  /** The page lists that the profile accepts so far. */
  ghost predicate Acceptable(pages: seq<seq<byte>>)
    decreases |pages|
  {
    pages == [] ||
    (var init, page := pages[..|pages| - 1], pages[|pages| - 1];
     && PagesShape(pages)
     && Acceptable(init)
     && if init == [] then IsHeadPage(page)
        else
          && !EndsStream(init[|init| - 1])
          && Serial(page) == Serial(pages[0])
          && PageFollows(Reassembly(init), page))
  }

  // ----- why a segment may be refused -----

  /** The tags packet must end its page, with granule position zero. */
  ghost predicate TagsEndPage(before: Assembly, after: Assembly, granule: int)
  {
    before.packets == [] && after.packets != [] ==> |after.packets| == 1 && after.pending == [] && granule == 0
  }

  function Limit(a: Assembly): nat
  {
    if a.packets == [] then MAX_TAG_BYTES else MAX_AUDIO_PACKET_BYTES
  }

  lemma TooLong(a: Assembly, segment: seq<byte>, after: Assembly)
    requires Extends(Feed(a, segment), after)
    requires |a.pending| + |segment| > Limit(a)
    ensures !(PacketsOk(after.packets) && PendingOk(after))
  {
    hide IsOpusTags;
    var n := |a.packets|;
    if |segment| == 255 {
      if after.packets == a.packets {
        assert |after.pending| > Limit(a);
      } else {
        assert a.packets < after.packets && |after.packets[n]| > Limit(a);
      }
    } else {
      assert after.packets[n] == a.pending + segment;
    }
  }

  lemma BadPacket(a: Assembly, segment: seq<byte>, after: Assembly)
    requires Extends(Feed(a, segment), after) && |segment| < 255
    requires if a.packets == [] then !IsOpusTags(a.pending + segment)
             else |a.packets| > MAX_AUDIO_PACKETS || !IsOpusPacket(a.pending + segment)
    ensures !PacketsOk(after.packets)
  {
    assert after.packets[|a.packets|] == a.pending + segment;
  }

  lemma {:induction false} MoreFollows(a: Assembly, lacing: seq<byte>, body: seq<byte>)
    requires Total(lacing) == |body| && lacing != []
    ensures var f := FeedAll(a, lacing, body); |f.packets| > |a.packets| || f.pending != []
  {
    hide IsOpusTags;
    FeedAllExtends(Feed(a, body[..lacing[0]]), lacing[1..], body[lacing[0]..]);
  }

  datatype Phase = Head | Tags | Audio

  class OggOpusProfile {
    var serial: Option<nat>
    var phase: Phase
    const packet: array<byte>
    var packetBytes: nat
    var audioPackets: nat
    var ended: bool
    ghost var pages: seq<seq<byte>>

    /** The fields are in step with what the pages so far reassemble to. */
    ghost predicate Holds(a: Assembly)
      reads this, packet
    {
      && packet.Length == MAX_TAG_BYTES
      && packetBytes <= packet.Length && packet[..packetBytes] == a.pending
      && PacketsOk(a.packets) && PendingOk(a)
      && phase == (if a.packets == [] then Tags else Audio)
      && audioPackets == if a.packets == [] then 0 else |a.packets| - 1
    }

    ghost predicate Valid()
      reads this, packet
    {
      && packet.Length == MAX_TAG_BYTES
      && Acceptable(pages)
      && PagesShape(pages)
      && ended == (pages != [] && EndsStream(pages[|pages| - 1]))
      && if pages == [] then phase == Head && serial == None && packetBytes == 0 && audioPackets == 0
         else serial == Some(Serial(pages[0])) && Holds(Reassembly(pages))
    }

    constructor ()
      ensures Valid() && pages == [] && fresh(packet)
    {
      serial, phase, packetBytes, audioPackets, ended, pages := None, Head, 0, 0, false, [];
      packet := new byte[MAX_TAG_BYTES];
    }

    /** `acceptPage`: true exactly when the pages so far and this one are acceptable. */
    method AcceptPage(page: seq<byte>) returns (ok: bool)
      requires Valid()
      modifies this, packet
      ensures ok <==> Acceptable(old(pages) + [page])
      ensures ok ==> Valid() && pages == old(pages) + [page]
    {
      hide PacketsOk, IsOpusTags, IsOpusPacket, FeedAll, Acceptable, Reassembly, PageFollows;
      ghost var all := pages + [page];
      ghost var before := Reassembly(pages);
      OneMorePage(pages, page);
      if ended || |page| < 27 {
        return false;
      }
      var segmentCount := SegmentCount(page);
      if |page| < 27 + segmentCount {
        return false;
      }
      var pageSerial := Serial(page);
      if serial.Some? && serial.value != pageSerial {
        return false;
      }
      serial := Some(pageSerial);
      var granule := Granule(page);
      var lacing, body := Lacing(page), PageBody(page);
      if Total(lacing) != |body| {
        return false;
      }
      if phase == Head {
        if !IsHeadPage(page) {
          return false;
        }
        phase := Tags;
        pages := all;
        NothingIsOk();
        NoPackets(all);
        return true;
      }
      ok := AcceptBody(page, granule, before);
      if ok {
        pages := all;
      }
    }

    /** A page after the head page. */
    method AcceptBody(page: seq<byte>, granule: int, ghost before: Assembly) returns (ok: bool)
      requires PageShape(page) && granule == Granule(page) && Holds(before) && !ended
      modifies this`phase, this`packetBytes, this`audioPackets, this`ended, packet
      ensures ok <==> PageFollows(before, page)
      ensures ok ==> Holds(FeedAll(before, Lacing(page), PageBody(page))) && ended == EndsStream(page)
    {
      hide PacketsOk, IsOpusTags, IsOpusPacket, FeedAll, Granule;
      if SegmentCount(page) == 0 {
        return false;
      }
      var completedOnPage;
      ok, completedOnPage := AcceptSegments(Lacing(page), PageBody(page), granule, before);
      if !ok {
        return false;
      }
      if (!completedOnPage && granule != -1) || (completedOnPage && granule < 0) {
        return false;
      }
      ended := EndsStream(page);
      ok := !ended || Complete();
    }

    /** The loop over the lacing table. */
    method AcceptSegments(lacing: seq<byte>, body: seq<byte>, granule: int, ghost before: Assembly)
      returns (ok: bool, completedOnPage: bool)
      requires Holds(before) && Total(lacing) == |body|
      modifies this`phase, this`packetBytes, this`audioPackets, packet
      ensures var after := FeedAll(before, lacing, body);
              && (ok <==> PacketsOk(after.packets) && PendingOk(after) && TagsEndPage(before, after, granule))
              && (ok ==> Holds(after))
      ensures ok ==> (completedOnPage <==> exists i :: 0 <= i < |lacing| && lacing[i] < 255)
    {
      hide PacketsOk, IsOpusTags, IsOpusPacket, FeedAll, Feed;
      ghost var after := FeedAll(before, lacing, body);
      ghost var a := before;
      var bodyOffset := 0;
      completedOnPage := false;
      assert lacing[0..] == lacing && body[0..] == body;
      for index := 0 to |lacing|
        invariant 0 <= bodyOffset <= |body| && Total(lacing[index..]) == |body[bodyOffset..]|
        invariant FeedAll(a, lacing[index..], body[bodyOffset..]) == after
        invariant Holds(a)
        invariant completedOnPage <==> exists i :: 0 <= i < index && lacing[i] < 255
        invariant before.packets == [] && a.packets != [] ==>
                    index == |lacing| && |a.packets| == 1 && a.pending == [] && granule == 0
        invariant before.packets != [] ==> a.packets != []
      {
        var length: nat := lacing[index];
        var limit := if phase == Tags then MAX_TAG_BYTES else MAX_AUDIO_PACKET_BYTES;
        ghost var segment, next := SegmentStep(a, lacing, body, index, bodyOffset);
        if packetBytes + length > limit {
          TooLong(a, segment, after);
          return false, completedOnPage;
        }
        CopySegment(body, bodyOffset, length);
        bodyOffset := bodyOffset + length;
        if length == 255 {
          FeedWhole(a, segment);
          a := next;
          continue;
        }
        FeedLast(a, segment);
        ok := AcceptPacket(a, segment, index == |lacing| - 1, granule);
        if !ok {
          if a.packets == [] && (index != |lacing| - 1 || granule != 0) {
            TagsTooEarly(next, lacing[index + 1..], body[bodyOffset..], a, granule);
          } else {
            BadPacket(a, segment, after);
          }
          return false, completedOnPage;
        }
        completedOnPage := true;
        a := next;
      }
      assert lacing[|lacing|..] == [] && after == a by {
        NothingLeft(a, lacing[|lacing|..], body[bodyOffset..]);
      }
      return true, completedOnPage;
    }

    /** The segment's bytes go behind the ones already in the buffer. */
    method CopySegment(body: seq<byte>, from: nat, length: nat)
      requires from + length <= |body| && packetBytes + length <= packet.Length
      modifies this`packetBytes, packet
      ensures packetBytes == old(packetBytes) + length
      ensures packet[..packetBytes] == old(packet[..packetBytes]) + body[from..from + length]
    {
      forall k | 0 <= k < length {
        packet[packetBytes + k] := body[from + k];
      }
      packetBytes := packetBytes + length;
    }

    /** The packet in the buffer is whole: it has to be the comment header or an audio packet. */
    method AcceptPacket(ghost a: Assembly, ghost segment: seq<byte>, endsPage: bool, granule: int) returns (ok: bool)
      requires packet.Length == MAX_TAG_BYTES
      requires packetBytes <= packet.Length && packet[..packetBytes] == a.pending + segment
      requires PacketsOk(a.packets) && packetBytes <= Limit(a)
      requires phase == (if a.packets == [] then Tags else Audio)
      requires audioPackets == if a.packets == [] then 0 else |a.packets| - 1
      modifies this`phase, this`packetBytes, this`audioPackets
      ensures ok <==> if a.packets == [] then endsPage && granule == 0 && IsOpusTags(a.pending + segment)
                      else |a.packets| <= MAX_AUDIO_PACKETS && IsOpusPacket(a.pending + segment)
      ensures ok ==> Holds(Assembly(a.packets + [a.pending + segment], []))
    {
      hide PacketsOk, IsOpusTags, IsOpusPacket;
      var bytes := packet[..packetBytes];
      if phase == Tags {
        if !endsPage || granule != 0 {
          return false;
        }
        var tags := MatchesOpusTags(bytes);
        if !tags {
          return false;
        }
        phase := Audio;
      } else {
        if audioPackets >= MAX_AUDIO_PACKETS {
          return false;
        }
        var framing := MatchesOpusPacketFraming(bytes);
        if !framing {
          return false;
        }
        audioPackets := audioPackets + 1;
      }
      OneMorePacket(a, bytes);
      packetBytes := 0;
      return true;
    }

    /** `isComplete`. */
    predicate Complete()
      reads this
    {
      ended && phase == Audio && audioPackets > 0 && packetBytes == 0
    }

    /** `isComplete` after accepted pages: the last page ends the stream and nothing is pending. */
    lemma CompleteMeansWholeStream()
      requires Valid()
      ensures Complete() <==>
                pages != [] && EndsStream(pages[|pages| - 1]) && IsComplete(Reassembly(pages))
    {
      hide PacketsOk, FeedAll;
    }
  }

  /** What one more page means for the verdict and for the packets. */
  lemma OneMorePage(pages: seq<seq<byte>>, page: seq<byte>)
    requires Acceptable(pages) && PagesShape(pages)
    ensures Acceptable(pages + [page])
       <==> && PageShape(page)
            && if pages == [] then IsHeadPage(page)
               else
                 && !EndsStream(pages[|pages| - 1])
                 && Serial(page) == Serial(pages[0])
                 && PageFollows(Reassembly(pages), page)
    ensures PageShape(page) && pages != [] ==>
              && PagesShape(pages + [page])
              && Reassembly(pages + [page]) == FeedAll(Reassembly(pages), Lacing(page), PageBody(page))
  {
    hide IsHeadPage, PageFollows, FeedAll, PageShape, Serial, EndsStream;
    var all := pages + [page];
    assert all[..|all| - 1] == pages && all[|all| - 1] == page;
    assert PagesShape(all) <==> PageShape(page);
  }

  lemma NoPackets(pages: seq<seq<byte>>)
    requires PagesShape(pages) && |pages| <= 1
    ensures Reassembly(pages) == NOTHING
  {
  }

  lemma NothingIsOk()
    ensures PacketsOk([]) && PendingOk(NOTHING)
  {
  }

  lemma NothingLeft(a: Assembly, lacing: seq<byte>, body: seq<byte>)
    requires lacing == [] && body == []
    ensures Total(lacing) == |body| && FeedAll(a, lacing, body) == a
  {
  }

  lemma SegmentStep(a: Assembly, lacing: seq<byte>, body: seq<byte>, index: nat, offset: nat)
    returns (segment: seq<byte>, next: Assembly)
    requires index < |lacing| && offset <= |body| && Total(lacing[index..]) == |body[offset..]|
    ensures offset + lacing[index] as int <= |body| && segment == body[offset..offset + lacing[index] as int]
    ensures next == Feed(a, segment)
    ensures Total(lacing[index + 1..]) == |body[offset + lacing[index] as int..]|
    ensures FeedAll(next, lacing[index + 1..], body[offset + lacing[index] as int..])
         == FeedAll(a, lacing[index..], body[offset..])
    ensures Extends(next, FeedAll(a, lacing[index..], body[offset..]))
  {
    hide Feed, Extends;
    var n: nat := lacing[index];
    assert lacing[index..][0] == lacing[index] && lacing[index..][1..] == lacing[index + 1..];
    segment := body[offset..offset + n];
    next := Feed(a, segment);
    assert body[offset..][..n] == segment && body[offset..][n..] == body[offset + n..];
    FeedAllExtends(next, lacing[index + 1..], body[offset + n..]);
  }

  lemma FeedLast(a: Assembly, segment: seq<byte>)
    requires |segment| < 255
    ensures Feed(a, segment) == Assembly(a.packets + [a.pending + segment], [])
  {
  }

  lemma TagsTooEarly(next: Assembly, lacing: seq<byte>, body: seq<byte>, a: Assembly, granule: int)
    requires a.packets == [] && |next.packets| == 1 && next.pending == []
    requires Total(lacing) == |body|
    requires lacing != [] || granule != 0
    ensures !TagsEndPage(a, FeedAll(next, lacing, body), granule)
  {
    hide Feed;
    FeedAllExtends(next, lacing, body);
    if lacing != [] {
      MoreFollows(next, lacing, body);
    }
  }

  lemma OneMorePacket(a: Assembly, bytes: seq<byte>)
    requires PacketsOk(a.packets) && |bytes| <= Limit(a)
    requires if a.packets == [] then IsOpusTags(bytes) else |a.packets| <= MAX_AUDIO_PACKETS && IsOpusPacket(bytes)
    ensures PacketsOk(a.packets + [bytes])
  {
    hide IsOpusTags, IsOpusPacket;
  }

  // ----- whole streams -----

  /** The lacing tables after the head page, one after the other. */
  function Lacings(pages: seq<seq<byte>>): seq<byte>
    requires PagesShape(pages)
  {
    if |pages| <= 1 then [] else Lacings(pages[..|pages| - 1]) + Lacing(pages[|pages| - 1])
  }

  /** The page bodies after the head page, one after the other. */
  function Bodies(pages: seq<seq<byte>>): seq<byte>
    requires PagesShape(pages)
  {
    if |pages| <= 1 then [] else Bodies(pages[..|pages| - 1]) + PageBody(pages[|pages| - 1])
  }

  /**
   * A stream of the profile: one head page, then one comment header and at least one audio
   * packet laced over pages of the same serial, the comment header alone on its last page, a
   * granule position exactly where packets end, and the end flag on the last page only.
   */
  ghost predicate IsOpusStream(pages: seq<seq<byte>>, packets: seq<seq<byte>>)
  {
    && |pages| >= 2 && PagesShape(pages) && IsHeadPage(pages[0])
    && IsLaced(Lacings(pages), Bodies(pages), packets, [])
    && |packets| >= 2 && PacketsOk(packets)
    && (forall i :: 1 <= i < |pages| ==> LaterPageOk(pages, i))
    && (exists j :: 1 <= j < |pages| && TagsEndOn(pages, packets, j))
  }

  predicate LaterPageOk(pages: seq<seq<byte>>, i: nat)
    requires PagesShape(pages) && i < |pages|
  {
    var page := pages[i];
    && Serial(page) == Serial(pages[0])
    && SegmentCount(page) > 0
    && (if CompletesPacket(page) then Granule(page) >= 0 else Granule(page) == -1)
    && (EndsStream(page) <==> i == |pages| - 1)
  }

  ghost predicate TagsEndOn(pages: seq<seq<byte>>, packets: seq<seq<byte>>, j: nat)
    requires PagesShape(pages) && j < |pages| && packets != []
  {
    Lacings(pages[..j + 1]) == LacingOfPacket(packets[0]) && Granule(pages[j]) == 0
  }

  lemma {:induction false} ReassemblyIsFold(pages: seq<seq<byte>>)
    requires PagesShape(pages)
    ensures Total(Lacings(pages)) == |Bodies(pages)|
    ensures Reassembly(pages) == FeedAll(NOTHING, Lacings(pages), Bodies(pages))
    decreases |pages|
  {
    hide FeedAll;
    if |pages| <= 1 {
      NothingToFeed();
    } else {
      var page := pages[|pages| - 1];
      ReassemblyIsFold(pages[..|pages| - 1]);
      FeedAppend(NOTHING, Lacings(pages[..|pages| - 1]), Bodies(pages[..|pages| - 1]), Lacing(page), PageBody(page));
    }
  }

  /** The packets of the pages so far are the ones their lacing describes, and only those. */
  lemma ReassembledPacketsAreLaced(pages: seq<seq<byte>>, packets: seq<seq<byte>>, pending: seq<byte>)
    requires PagesShape(pages)
    ensures IsLaced(Lacings(pages), Bodies(pages), packets, pending) <==> Reassembly(pages) == Assembly(packets, pending)
  {
    hide IsLaced, FeedAll, Lacings, Bodies, Reassembly;
    ReassemblyIsFold(pages);
    ReassemblyInvertsLacing(Lacings(pages), Bodies(pages), packets, pending);
  }

  lemma {:induction false} ReassemblyExtends(pages: seq<seq<byte>>, i: nat)
    requires PagesShape(pages) && 1 <= i <= |pages|
    ensures Extends(Reassembly(pages[..i]), Reassembly(pages))
    decreases |pages|
  {
    hide FeedAll;
    if i < |pages| {
      var init, page := pages[..|pages| - 1], pages[|pages| - 1];
      assert init[..i] == pages[..i];
      ReassemblyExtends(init, i);
      FeedAllExtends(Reassembly(init), Lacing(page), PageBody(page));
    } else {
      assert pages[..i] == pages;
    }
  }

  lemma ReassemblyStep(pages: seq<seq<byte>>, i: nat)
    requires PagesShape(pages) && 1 <= i < |pages|
    ensures Reassembly(pages[..i + 1]) == FeedAll(Reassembly(pages[..i]), Lacing(pages[i]), PageBody(pages[i]))
  {
    hide FeedAll;
    assert pages[..i + 1][..i] == pages[..i];
  }

  lemma {:induction false} PrefixIsAcceptable(pages: seq<seq<byte>>, i: nat)
    requires Acceptable(pages) && i <= |pages|
    ensures PagesShape(pages) && Acceptable(pages[..i])
    decreases |pages|
  {
    hide PageFollows, IsHeadPage;
    if i == |pages| {
      assert pages[..i] == pages;
    } else {
      PrefixIsAcceptable(pages[..|pages| - 1], i);
      assert pages[..|pages| - 1][..i] == pages[..i];
    }
  }

  lemma LastAccepted(pages: seq<seq<byte>>)
    requires Acceptable(pages) && |pages| >= 2
    ensures PagesShape(pages)
    ensures var i := |pages| - 1;
            && PageFollows(Reassembly(pages[..i]), pages[i]) && Serial(pages[i]) == Serial(pages[0])
            && !EndsStream(pages[i - 1])
  {
    hide PageFollows, IsHeadPage, Reassembly, Serial, EndsStream, PageShape;
  }

  /** What acceptance of the pages up to and including page i says about page i. */
  lemma AcceptedPage(pages: seq<seq<byte>>, i: nat)
    requires Acceptable(pages) && 1 <= i < |pages|
    ensures PagesShape(pages)
    ensures PageFollows(Reassembly(pages[..i]), pages[i]) && Serial(pages[i]) == Serial(pages[0])
    ensures EndsStream(pages[i]) ==> i == |pages| - 1
  {
    hide *;
    PrefixIsAcceptable(pages, i + 1);
    assert pages[..i + 1][..i] == pages[..i];
    LastAccepted(pages[..i + 1]);
    if i + 1 < |pages| {
      PrefixIsAcceptable(pages, i + 2);
      LastAccepted(pages[..i + 2]);
    }
  }

  lemma {:induction false} FindTagsPage(pages: seq<seq<byte>>, n: nat) returns (j: nat)
    requires Acceptable(pages) && PagesShape(pages) && 1 <= n <= |pages|
    requires Reassembly(pages[..n]).packets != []
    ensures 1 <= j < n && |Reassembly(pages[..j + 1]).packets| == 1
    ensures Reassembly(pages[..j + 1]).pending == [] && Granule(pages[j]) == 0
    decreases n
  {
    hide FeedAll, PacketsOk;
    if n > 1 && Reassembly(pages[..n - 1]).packets != [] {
      j := FindTagsPage(pages, n - 1);
    } else {
      j := n - 1;
      AcceptedPage(pages, j);
      ReassemblyStep(pages, j);
    }
  }

  /** Page lists accepted to the end flag are exactly the streams of the profile. */
  lemma AcceptedToTheEndIffStream(pages: seq<seq<byte>>)
    ensures (pages != [] && Acceptable(pages) && PagesShape(pages) && EndsStream(pages[|pages| - 1]))
            <==> exists packets :: IsOpusStream(pages, packets)
  {
    hide IsOpusStream, Acceptable;
    if pages != [] && Acceptable(pages) && PagesShape(pages) && EndsStream(pages[|pages| - 1]) {
      var packets := AcceptedStream(pages);
    }
    if packets :| IsOpusStream(pages, packets) {
      StreamIsAccepted(pages, packets, |pages|);
      assert pages[..|pages|] == pages;
    }
  }

  lemma AcceptedStream(pages: seq<seq<byte>>) returns (packets: seq<seq<byte>>)
    requires pages != [] && Acceptable(pages) && PagesShape(pages) && EndsStream(pages[|pages| - 1])
    ensures IsOpusStream(pages, packets)
  {
    hide FeedAll, PacketsOk, Lacings, Bodies, IsLaced, Reassembly, LaterPageOk, TagsEndOn, IsHeadPage, EndsStream;
    var n := |pages|;
    PrefixIsAcceptable(pages, 1);
    assert pages[..1][0] == pages[0];
    HeadDoesNotEnd(pages[0]);
    packets := Reassembly(pages).packets;
    AcceptedPage(pages, n - 1);
    ReassemblyStep(pages, n - 1);
    assert pages[..n] == pages;
    ReassembledPacketsAreLaced(pages, packets, []);
    forall i | 1 <= i < n
      ensures LaterPageOk(pages, i)
    {
      AcceptedLaterPage(pages, i);
    }
    var j := AcceptedTags(pages);
    assert TagsEndOn(pages, packets, j);
  }

  lemma AcceptedLaterPage(pages: seq<seq<byte>>, i: nat)
    requires Acceptable(pages) && PagesShape(pages) && 1 <= i < |pages| && EndsStream(pages[|pages| - 1])
    ensures LaterPageOk(pages, i)
  {
    hide Acceptable, FeedAll, PacketsOk, PendingOk, Reassembly, CompletesPacket, EndsStream, Serial, Granule;
    hide PageShape, Lacing, PageBody, SegmentCount, IsComplete;
    AcceptedPage(pages, i);
  }

  lemma AcceptedTags(pages: seq<seq<byte>>) returns (j: nat)
    requires Acceptable(pages) && PagesShape(pages) && pages != [] && Reassembly(pages).packets != []
    ensures 1 <= j < |pages| && TagsEndOn(pages, Reassembly(pages).packets, j)
  {
    hide FeedAll, Lacings, Bodies, Reassembly, Acceptable;
    var n, packets := |pages|, Reassembly(pages).packets;
    assert pages[..n] == pages;
    j := FindTagsPage(pages, n);
    ReassemblyExtends(pages, j + 1);
    var tags := Reassembly(pages[..j + 1]);
    assert tags.packets == [packets[0]];
    TagsLacing(pages, packets, j);
  }

  lemma TagsLacing(pages: seq<seq<byte>>, packets: seq<seq<byte>>, j: nat)
    requires PagesShape(pages) && j < |pages| && packets != []
    ensures Lacings(pages[..j + 1]) == LacingOfPacket(packets[0]) && Bodies(pages[..j + 1]) == packets[0]
            <==> Reassembly(pages[..j + 1]) == Assembly([packets[0]], [])
  {
    hide FeedAll, Lacings, Bodies, Reassembly, LacingOfPacket;
    ReassembledPacketsAreLaced(pages[..j + 1], [packets[0]], []);
    var one := [packets[0]];
    assert one[1..] == [];
    assert LacingOfPackets([packets[0]]) + WholeSegments(0) == LacingOfPacket(packets[0]);
    assert Flatten([packets[0]]) + [] == packets[0];
  }

  lemma {:induction false} LacingsGrow(pages: seq<seq<byte>>, i: nat)
    requires PagesShape(pages) && 1 <= i <= |pages|
    ensures Lacings(pages[..i]) <= Lacings(pages) && Bodies(pages[..i]) <= Bodies(pages)
    decreases |pages|
  {
    if i < |pages| {
      assert pages[..|pages| - 1][..i] == pages[..i];
      LacingsGrow(pages[..|pages| - 1], i);
    } else {
      assert pages[..i] == pages;
    }
  }

  lemma TagsPageAssembly(pages: seq<seq<byte>>, packets: seq<seq<byte>>, j: nat)
    requires IsOpusStream(pages, packets) && 1 <= j < |pages| && TagsEndOn(pages, packets, j)
    ensures Reassembly(pages[..j + 1]) == Assembly([packets[0]], [])
  {
    hide FeedAll, PacketsOk, Lacings, Bodies, Reassembly, LacingOfPacket, LacingOfPackets;
    LacingsGrow(pages, j + 1);
    ReassemblyIsFold(pages[..j + 1]);
    FeedPacket(NOTHING, packets[0]);
    assert Flatten(packets) == packets[0] + Flatten(packets[1..]);
    assert Bodies(pages) == packets[0] + Flatten(packets[1..]);
    assert Bodies(pages[..j + 1]) == packets[0];
    TagsLacing(pages, packets, j);
  }

  lemma {:induction false} StreamIsAccepted(pages: seq<seq<byte>>, packets: seq<seq<byte>>, n: nat)
    requires IsOpusStream(pages, packets) && n <= |pages|
    ensures pages != [] && PagesShape(pages) && EndsStream(pages[|pages| - 1])
    ensures Acceptable(pages[..n])
    decreases n
  {
    hide FeedAll, PacketsOk, Lacings, Bodies, IsLaced, Reassembly, IsHeadPage, PageFollows;
    assert LaterPageOk(pages, |pages| - 1);
    if n > 0 {
      StreamIsAccepted(pages, packets, n - 1);
      assert pages[..n][..n - 1] == pages[..n - 1];
      if n > 1 {
        if n > 2 {
          assert LaterPageOk(pages, n - 2);
        } else {
          HeadDoesNotEnd(pages[0]);
        }
        StreamPageFollows(pages, packets, n - 1);
        assert LaterPageOk(pages, n - 1);
      }
    }
  }

  lemma HeadDoesNotEnd(page: seq<byte>)
    requires PageShape(page) && IsHeadPage(page)
    ensures !EndsStream(page)
  {
  }

  lemma StreamPageFollows(pages: seq<seq<byte>>, packets: seq<seq<byte>>, i: nat)
    requires IsOpusStream(pages, packets) && 1 <= i < |pages|
    ensures PageFollows(Reassembly(pages[..i]), pages[i])
  {
    hide FeedAll, Lacings, Bodies, IsLaced, Reassembly, IsOpusTags, IsOpusPacket, IsHeadPage, CompletesPacket, TagsEndOn;
    assert LaterPageOk(pages, i);
    ReassembledPacketsAreLaced(pages, packets, []);
    ReassemblyExtends(pages, i + 1);
    ReassemblyStep(pages, i);
    var before, after := Reassembly(pages[..i]), Reassembly(pages[..i + 1]);
    PrefixPacketsOk(after, packets);
    if i == |pages| - 1 {
      assert pages[..i + 1] == pages;
    }
    if before.packets == [] && after.packets != [] {
      StreamTagsPage(pages, packets, i);
    }
  }

  lemma StreamTagsPage(pages: seq<seq<byte>>, packets: seq<seq<byte>>, i: nat)
    requires IsOpusStream(pages, packets) && 1 <= i < |pages|
    requires Reassembly(pages[..i]).packets == [] && Reassembly(pages[..i + 1]).packets != []
    ensures Reassembly(pages[..i + 1]) == Assembly([packets[0]], []) && Granule(pages[i]) == 0
  {
    hide FeedAll, Lacings, Bodies, IsLaced, Reassembly, PacketsOk, IsHeadPage, CompletesPacket;
    forall k | 1 <= k < |pages|
      ensures SegmentCount(pages[k]) > 0
    {
      assert LaterPageOk(pages, k);
    }
    var j :| 1 <= j < |pages| && TagsEndOn(pages, packets, j);
    TagsPageAssembly(pages, packets, j);
    OnlyTagsPage(pages, packets, i, j);
  }

  lemma PrefixPacketsOk(after: Assembly, packets: seq<seq<byte>>)
    requires PacketsOk(packets) && Extends(after, Assembly(packets, []))
    ensures PacketsOk(after.packets) && PendingOk(after)
  {
    hide IsOpusTags;
    if |packets| > |after.packets| {
      assert after.pending <= packets[|after.packets|];
    }
  }

  lemma OnlyTagsPage(pages: seq<seq<byte>>, packets: seq<seq<byte>>, i: nat, j: nat)
    requires PagesShape(pages) && packets != [] && 1 <= i < |pages| && 1 <= j < |pages|
    requires forall k :: 1 <= k < |pages| ==> SegmentCount(pages[k]) > 0
    requires Reassembly(pages[..i]).packets == [] && Reassembly(pages[..i + 1]).packets != []
    requires Reassembly(pages[..j + 1]) == Assembly([packets[0]], [])
    ensures i == j
  {
    hide FeedAll, Reassembly;
    if i > j {
      assert pages[..i][..j + 1] == pages[..j + 1];
      ReassemblyExtends(pages[..i], j + 1);
    } else if i < j {
      var middle := Reassembly(pages[..j]);
      assert pages[..j][..i + 1] == pages[..i + 1];
      ReassemblyExtends(pages[..j], i + 1);
      ReassemblyStep(pages, j);
      FeedAllExtends(middle, Lacing(pages[j]), PageBody(pages[j]));
      MoreFollows(middle, Lacing(pages[j]), PageBody(pages[j]));
    }
  }
}
