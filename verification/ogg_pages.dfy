/**
 * `matchesOggStructure`: the page walk over a whole Ogg file. A file is accepted exactly when it
 * is a concatenation of valid pages that fall, serial by serial, into well-formed logical streams.
 */
module OggPages {
  import opened Bytes
  import opened Wrappers
  import opened OggLacing
  import opened Crc
  import opened OggOpus

  const OGG_MAX_PAGE_BYTES: nat := 65307
  const OGG_MAX_PAGES: nat := 100000

  // ----- one page -----

  function OggCapture(): (m: seq<byte>)
    ensures |m| == 4
  {
    [0x4f, 0x67, 0x67, 0x53] // "OggS"
  }

  function Sequence(page: seq<byte>): (n: nat)
    requires |page| >= 27
    ensures n < 0x1_0000_0000
  {
    U32LE(page, 18)
  }

  predicate BeginsStream(page: seq<byte>)
    requires |page| >= 27
  {
    page[5] / 2 % 2 == 1
  }

  predicate Continues(page: seq<byte>)
    requires |page| >= 27
  {
    page[5] % 2 == 1
  }

  /** The last packet of the page goes on on the next one. */
  predicate LeavesOpen(page: seq<byte>)
    requires PageShape(page)
  {
    SegmentCount(page) > 0 && Lacing(page)[SegmentCount(page) - 1] == 255
  }

  /** A page that is well formed on its own. */
  ghost predicate IsPage(page: seq<byte>)
  {
    && PageShape(page)
    && page[..4] == OggCapture() && page[4] == 0 && page[5] < 8
    && ChecksumHolds(page)
    && (Continues(page) ==> SegmentCount(page) > 0)
  }

  /** The page that a byte string starts with, by its own lacing table. */
  function PageAt(w: seq<byte>): (p: Option<seq<byte>>)
    ensures p.Some? ==> PageShape(p.value) && p.value <= w && p.value != []
  {
    if |w| < 27 || |w| < 27 + SegmentCount(w) then None
    else
      var n := 27 + SegmentCount(w) + Total(Lacing(w));
      if |w| < n then None else
        var page := w[..n];
        assert Lacing(page) == Lacing(w);
        Some(page)
  }

  lemma PageAtReadsPrefix(w: seq<byte>, page: seq<byte>)
    requires PageShape(page) && page <= w
    ensures PageAt(w) == Some(page)
  {
    hide Total;
    assert SegmentCount(page) == SegmentCount(w) && Lacing(page) == Lacing(w);
    assert |page| == 27 + SegmentCount(w) + Total(Lacing(w));
    assert w[..|page|] == page;
  }

  lemma {:induction false} LacingIsBounded(lacing: seq<byte>)
    ensures Total(lacing) <= 255 * |lacing|
  {
    if lacing != [] {
      LacingIsBounded(lacing[1..]);
    }
  }

  /** The 65,307-byte limit is the largest length a lacing table can announce: it never fires. */
  lemma NoPageIsTooLong(page: seq<byte>)
    requires PageShape(page)
    ensures |page| <= OGG_MAX_PAGE_BYTES
  {
    LacingIsBounded(Lacing(page));
  }

  // ----- page lists -----

  function OfSerial(pages: seq<seq<byte>>, serial: nat): (ps: seq<seq<byte>>)
    requires PagesShape(pages)
    ensures PagesShape(ps) && |ps| <= |pages|
    ensures forall p :: p in ps ==> p in pages && Serial(p) == serial
  {
    if pages == [] then []
    else
      var init, page := pages[..|pages| - 1], pages[|pages| - 1];
      OfSerial(init, serial) + if Serial(page) == serial then [page] else []
  }

  predicate PageInPlace(ps: seq<seq<byte>>, i: nat)
    requires PagesShape(ps) && i < |ps|
  {
    && (BeginsStream(ps[i]) <==> i == 0)
    && Sequence(ps[i]) == i
    && (Continues(ps[i]) <==> i > 0 && LeavesOpen(ps[i - 1]))
  }

  /** One logical stream: numbered from 0, begun once, ended once, no packet left open. */
  predicate IsLogicalStream(ps: seq<seq<byte>>)
    requires PagesShape(ps)
  {
    && ps != []
    && (forall i :: 0 <= i < |ps| ==> PageInPlace(ps, i) && (EndsStream(ps[i]) <==> i == |ps| - 1))
    && !LeavesOpen(ps[|ps| - 1])
  }

  predicate HasPayload(pages: seq<seq<byte>>)
    requires PagesShape(pages)
  {
    exists i :: 0 <= i < |pages| && PageBody(pages[i]) != []
  }

  ghost predicate StreamsWhole(pages: seq<seq<byte>>)
    requires PagesShape(pages)
  {
    forall serial: nat :: OfSerial(pages, serial) == [] || IsLogicalStream(OfSerial(pages, serial))
  }

  ghost predicate IsOggPages(pages: seq<seq<byte>>)
  {
    && 0 < |pages| < OGG_MAX_PAGES
    && PagesShape(pages)
    && (forall i :: 0 <= i < |pages| ==> IsPage(pages[i]))
    && HasPayload(pages)
    && StreamsWhole(pages)
  }

  predicate IsPagesOf(file: seq<byte>, pages: seq<seq<byte>>)
  {
    PagesShape(pages) && Flatten(pages) == file
  }

  ghost predicate Meets(pages: seq<seq<byte>>, opus: bool)
  {
    IsOggPages(pages) && (opus ==> exists packets :: IsOpusStream(pages, packets))
  }

  ghost predicate IsOggFile(file: seq<byte>, opus: bool)
  {
    exists pages :: IsPagesOf(file, pages) && Meets(pages, opus)
  }

  // ----- the walk -----

  /** A logical stream that may still go on. */
  predicate StreamSoFar(ps: seq<seq<byte>>)
    requires PagesShape(ps)
  {
    forall i :: 0 <= i < |ps| ==> PageInPlace(ps, i) && NotAfterEnd(ps, i)
  }

  ghost predicate PagesSoFar(pages: seq<seq<byte>>, opus: bool)
  {
    && PagesShape(pages)
    && (forall i :: 0 <= i < |pages| ==> IsPage(pages[i]))
    && (forall serial: nat :: StreamSoFar(OfSerial(pages, serial)))
    && (opus ==> Acceptable(pages))
  }

  datatype OggStreamState = OggStreamState(nextSequence: nat, continuedPacket: bool, ended: bool)

  function StateAfter(page: seq<byte>): OggStreamState
    requires PageShape(page)
  {
    OggStreamState((Sequence(page) + 1) % 0x1_0000_0000, LeavesOpen(page), EndsStream(page))
  }

  ghost predicate InStep(streams: map<nat, OggStreamState>, pages: seq<seq<byte>>)
    requires PagesShape(pages)
  {
    forall serial: nat ::
      var ps := OfSerial(pages, serial);
      && (serial in streams <==> ps != [])
      && (ps != [] ==> streams[serial] == StateAfter(ps[|ps| - 1]))
  }

  lemma ProjectionStep(pages: seq<seq<byte>>, page: seq<byte>, serial: nat)
    requires PagesShape(pages) && PageShape(page)
    ensures PagesShape(pages + [page])
    ensures OfSerial(pages + [page], serial)
         == if Serial(page) == serial then OfSerial(pages, serial) + [page] else OfSerial(pages, serial)
  {
    hide PageShape, Serial;
    assert (pages + [page])[..|pages|] == pages;
    assert forall i :: 0 <= i < |pages| ==> (pages + [page])[i] == pages[i];
  }

  /** What the stored state says about whether a page may come next. */
  predicate Continuing(prior: Option<OggStreamState>, page: seq<byte>)
    requires PageShape(page)
  {
    && (match prior
        case None => BeginsStream(page) && !Continues(page) && Sequence(page) == 0
        case Some(state) =>
          !state.ended && !BeginsStream(page) && Sequence(page) == state.nextSequence &&
          Continues(page) == state.continuedPacket)
    && !(EndsStream(page) && LeavesOpen(page))
  }

  function LastState(ps: seq<seq<byte>>): Option<OggStreamState>
    requires PagesShape(ps)
  {
    if ps == [] then None else Some(StateAfter(ps[|ps| - 1]))
  }

  predicate NotAfterEnd(ps: seq<seq<byte>>, i: nat)
    requires PagesShape(ps) && i < |ps|
  {
    EndsStream(ps[i]) ==> i == |ps| - 1 && !LeavesOpen(ps[i])
  }

  lemma PlaceStays(ps: seq<seq<byte>>, page: seq<byte>, i: nat)
    requires PagesShape(ps) && PageShape(page) && i < |ps|
    ensures PagesShape(ps + [page])
    ensures PageInPlace(ps + [page], i) <==> PageInPlace(ps, i)
    ensures NotAfterEnd(ps + [page], i) <==> NotAfterEnd(ps, i) && !EndsStream(ps[i])
  {
    hide PageShape, Sequence, BeginsStream, Continues, LeavesOpen, EndsStream, SegmentCount;
    var all := ps + [page];
    assert all[i] == ps[i] && (i > 0 ==> all[i - 1] == ps[i - 1]);
  }

  lemma NewPlace(ps: seq<seq<byte>>, page: seq<byte>)
    requires PagesShape(ps) && PageShape(page) && |ps| < OGG_MAX_PAGES
    requires ps != [] ==> PageInPlace(ps, |ps| - 1)
    ensures PagesShape(ps + [page])
    ensures PageInPlace(ps + [page], |ps|) && NotAfterEnd(ps + [page], |ps|) && (ps != [] ==> !EndsStream(ps[|ps| - 1]))
            <==> Continuing(LastState(ps), page)
  {
    hide PageShape, Sequence, BeginsStream, Continues, LeavesOpen, EndsStream, SegmentCount;
    var all, n := ps + [page], |ps|;
    assert all[n] == page && (n > 0 ==> all[n - 1] == ps[n - 1]);
  }

  lemma StreamGrows(ps: seq<seq<byte>>, page: seq<byte>)
    requires PagesShape(ps) && PageShape(page) && StreamSoFar(ps) && |ps| < OGG_MAX_PAGES
    ensures PagesShape(ps + [page])
    ensures StreamSoFar(ps + [page]) <==> Continuing(LastState(ps), page)
  {
    hide PageShape, PageInPlace, NotAfterEnd, Continuing, EndsStream, SegmentCount;
    var all, n := ps + [page], |ps|;
    if n > 0 {
      assert PageInPlace(ps, n - 1);
    }
    NewPlace(ps, page);
    forall i | 0 <= i < n
      ensures PageInPlace(all, i) && (NotAfterEnd(all, i) <==> !EndsStream(ps[i]))
    {
      assert PageInPlace(ps, i) && NotAfterEnd(ps, i);
      PlaceStays(ps, page, i);
      EarlierDoesNotEnd(ps, i);
    }
    if StreamSoFar(all) {
      assert PageInPlace(all, n) && NotAfterEnd(all, n);
      assert n > 0 ==> NotAfterEnd(all, n - 1);
    }
    if Continuing(LastState(ps), page) {
      forall i | 0 <= i < |all|
        ensures PageInPlace(all, i) && NotAfterEnd(all, i)
      {
        assert i < n ==> NotAfterEnd(ps, i);
        if i < n {
          EarlierDoesNotEnd(ps, i);
        }
      }
    }
  }

  lemma EarlierDoesNotEnd(ps: seq<seq<byte>>, i: nat)
    requires PagesShape(ps) && i < |ps| && NotAfterEnd(ps, i)
    ensures EndsStream(ps[i]) ==> i == |ps| - 1
  {
  }

  lemma {:induction false} PrefixProjects(pages: seq<seq<byte>>, n: nat, serial: nat)
    requires PagesShape(pages) && n <= |pages|
    ensures OfSerial(pages[..n], serial) <= OfSerial(pages, serial)
    decreases |pages|
  {
    hide PageShape, Serial;
    if n < |pages| {
      assert pages[..|pages| - 1][..n] == pages[..n];
      PrefixProjects(pages[..|pages| - 1], n, serial);
    } else {
      assert pages[..n] == pages;
    }
  }

  lemma StreamPrefix(ps: seq<seq<byte>>, qs: seq<seq<byte>>)
    requires PagesShape(ps) && IsLogicalStream(ps) && qs <= ps
    ensures PagesShape(qs) && StreamSoFar(qs)
  {
    hide PageShape, Sequence, BeginsStream, Continues, LeavesOpen, EndsStream;
    assert PagesShape(qs);
    forall i | 0 <= i < |qs|
      ensures PageInPlace(qs, i) && NotAfterEnd(qs, i)
    {
      assert PageInPlace(ps, i) && qs[i] == ps[i];
    }
  }

  /** Every beginning of an accepted page list passes the page-by-page checks. */
  lemma PrefixPassesSoFar(pages: seq<seq<byte>>, opus: bool, n: nat)
    requires Meets(pages, opus) && n <= |pages|
    ensures PagesSoFar(pages[..n], opus)
  {
    hide PageShape, IsPage, Acceptable, IsOpusStream, IsLogicalStream, StreamSoFar, OfSerial;
    forall serial: nat
      ensures PagesShape(OfSerial(pages[..n], serial)) && StreamSoFar(OfSerial(pages[..n], serial))
    {
      PrefixProjects(pages, n, serial);
      if OfSerial(pages, serial) == [] {
        EmptyStreamSoFar();
      } else {
        StreamPrefix(OfSerial(pages, serial), OfSerial(pages[..n], serial));
      }
    }
    if opus {
      var packets :| IsOpusStream(pages, packets);
      StreamIsAccepted(pages, packets, n);
    }
  }

  lemma EmptyStreamSoFar()
    ensures StreamSoFar([])
  {
  }

  /** Any split of the file that agrees with the pages read so far goes on with the page found here. */
  lemma NextPageIsForced(file: seq<byte>, read: seq<seq<byte>>, offset: nat, pages: seq<seq<byte>>)
    requires IsPagesOf(file, pages) && read <= pages
    requires offset < |file| && Flatten(read) == file[..offset]
    ensures PageAt(file[offset..]).Some? && read + [PageAt(file[offset..]).value] <= pages
  {
    hide PageShape, PageAt;
    var n := |read|;
    assert pages == read + pages[n..];
    FlattenAppend(read, pages[n..]);
    assert file[offset..] == Flatten(pages[n..]);
    var page := pages[n];
    assert pages[n..][0] == page && page <= file[offset..];
    PageAtReadsPrefix(file[offset..], page);
    assert read + [page] == pages[..n + 1];
  }

  /** A file splits into pages in at most one way. */
  lemma {:induction false} SplitIsUnique(a: seq<seq<byte>>, b: seq<seq<byte>>)
    requires PagesShape(a) && PagesShape(b) && Flatten(a) == Flatten(b)
    ensures a == b
  {
    hide PageShape, PageAt;
    if a != [] && b != [] {
      PageAtReadsPrefix(Flatten(a), a[0]);
      PageAtReadsPrefix(Flatten(b), b[0]);
      assert Flatten(a)[|a[0]|..] == Flatten(a[1..]) && Flatten(b)[|b[0]|..] == Flatten(b[1..]);
      SplitIsUnique(a[1..], b[1..]);
    } else {
      PagesAreNotEmpty(a);
      PagesAreNotEmpty(b);
    }
  }

  lemma PagesAreNotEmpty(pages: seq<seq<byte>>)
    requires PagesShape(pages)
    ensures Flatten(pages) == [] <==> pages == []
  {
  }

  /** The page at an offset, when it is well formed on its own. */
  method ReadPage(file: seq<byte>, offset: nat, table: seq<bv32>) returns (page: Option<seq<byte>>)
    requires IsOggTable(table) && offset < |file|
    ensures page.Some? ==> PageAt(file[offset..]) == page && IsPage(page.value) && offset + |page.value| <= |file|
    ensures page == None ==> PageAt(file[offset..]) == None || !IsPage(PageAt(file[offset..]).value)
  {
    hide ChecksumHolds, IsOggTable, Total;
    ghost var w := file[offset..];
    var read := ReadExactly(file, OGG_FIXED_HEADER_BYTES, offset);
    if read == None {
      return None;
    }
    var fixed := read.value;
    assert fixed == w[..27];
    if fixed[..4] != OggCapture() || fixed[4] != 0 || fixed[5] >= 8 {
      assert PageAt(w).Some? ==> PageAt(w).value[..27] == fixed;
      return None;
    }
    var segmentCount: nat := fixed[26];
    read := ReadExactly(file, segmentCount, offset + OGG_FIXED_HEADER_BYTES);
    if read == None {
      return None;
    }
    var lacing := read.value;
    assert lacing == Lacing(w);
    var pageBytes := OGG_FIXED_HEADER_BYTES + segmentCount + Total(lacing);
    if pageBytes > OGG_MAX_PAGE_BYTES || offset + pageBytes > |file| {
      LacingIsBounded(lacing);
      return None;
    }
    read := ReadExactly(file, pageBytes, offset);
    assert read.Some? && read.value == w[..pageBytes];
    assert PageAt(w) == read;
    var sound := HasValidOggCrc(table, read.value);
    if !sound || (Continues(fixed) && segmentCount == 0) {
      return None;
    }
    return read;
  }

  lemma StateStays(streams: map<nat, OggStreamState>, read: seq<seq<byte>>, page: seq<byte>)
    requires PagesShape(read) && PageShape(page) && InStep(streams, read)
    ensures PagesShape(read + [page])
    ensures InStep(streams[Serial(page) := StateAfter(page)], read + [page])
  {
    hide PageShape, Serial, StateAfter, OfSerial;
    forall serial: nat
      ensures var ps := OfSerial(read + [page], serial);
              var next := streams[Serial(page) := StateAfter(page)];
              && (serial in next <==> ps != [])
              && (ps != [] ==> next[serial] == StateAfter(ps[|ps| - 1]))
    {
      ProjectionStep(read, page, serial);
    }
  }

  /** One more page keeps the invariant exactly when its own stream may go on with it. */
  lemma PagesGrow(streams: map<nat, OggStreamState>, read: seq<seq<byte>>, page: seq<byte>)
    requires PagesSoFar(read, false) && IsPage(page) && InStep(streams, read) && |read| < OGG_MAX_PAGES
    ensures PagesSoFar(read + [page], false)
            <==> Continuing(if Serial(page) in streams then Some(streams[Serial(page)]) else None, page)
  {
    hide PageShape, Serial, StateAfter, OfSerial, StreamSoFar, Continuing, ChecksumHolds;
    var own := Serial(page);
    StreamGrows(OfSerial(read, own), page);
    ProjectionStep(read, page, own);
    assert forall i :: 0 <= i < |read| ==> (read + [page])[i] == read[i];
    if StreamSoFar(OfSerial(read, own) + [page]) {
      forall serial: nat
        ensures PagesShape(read + [page]) && StreamSoFar(OfSerial(read + [page], serial))
      {
        ProjectionStep(read, page, serial);
      }
    }
  }

  lemma FinishedStream(ps: seq<seq<byte>>)
    requires PagesShape(ps) && StreamSoFar(ps) && ps != []
    ensures var state := StateAfter(ps[|ps| - 1]);
            state.ended && !state.continuedPacket <==> IsLogicalStream(ps)
  {
    hide PageShape, PageInPlace, LeavesOpen, EndsStream, Sequence, SegmentCount;
    var n := |ps| - 1;
    forall i | 0 <= i < n
      ensures !EndsStream(ps[i])
    {
      assert NotAfterEnd(ps, i);
    }
  }

  predicate AllFinished(streams: map<nat, OggStreamState>)
  {
    forall serial :: serial in streams ==> streams[serial].ended && !streams[serial].continuedPacket
  }

  lemma FinishedStreams(streams: map<nat, OggStreamState>, pages: seq<seq<byte>>)
    requires PagesSoFar(pages, false) && PagesShape(pages) && InStep(streams, pages)
    ensures AllFinished(streams) <==> StreamsWhole(pages)
  {
    hide PageShape, OfSerial, StateAfter, IsLogicalStream, StreamSoFar, IsPage;
    forall serial: nat
      ensures OfSerial(pages, serial) == [] <==> serial !in streams
      ensures serial in streams ==>
                (streams[serial].ended && !streams[serial].continuedPacket <==> IsLogicalStream(OfSerial(pages, serial)))
    {
      var ps := OfSerial(pages, serial);
      if ps != [] {
        FinishedStream(ps);
      }
    }
    if AllFinished(streams) {
      assert StreamsWhole(pages);
    }
    if StreamsWhole(pages) {
      forall serial | serial in streams
        ensures streams[serial].ended && !streams[serial].continuedPacket
      {
        assert OfSerial(pages, serial) == [] || IsLogicalStream(OfSerial(pages, serial));
      }
    }
  }

  /** Every way to cut the file into pages starts with the pages read so far. */
  ghost predicate AllSplitsStart(file: seq<byte>, read: seq<seq<byte>>)
  {
    forall split :: IsPagesOf(file, split) ==> read <= split
  }

  lemma SplitsGoOn(file: seq<byte>, read: seq<seq<byte>>, offset: nat)
    requires AllSplitsStart(file, read) && offset < |file| && Flatten(read) == file[..offset]
    ensures PageAt(file[offset..]) == None ==> forall split :: !IsPagesOf(file, split)
    ensures PageAt(file[offset..]).Some? ==> AllSplitsStart(file, read + [PageAt(file[offset..]).value])
  {
    hide PageAt, Flatten, IsPagesOf;
    forall split | IsPagesOf(file, split)
      ensures PageAt(file[offset..]).Some? && read + [PageAt(file[offset..]).value] <= split
    {
      NextPageIsForced(file, read, offset, split);
    }
  }

  lemma RefuseHere(file: seq<byte>, opus: bool, read: seq<seq<byte>>, offset: nat)
    requires AllSplitsStart(file, read) && offset < |file| && Flatten(read) == file[..offset]
    requires PageAt(file[offset..]) == None || !PagesSoFar(read + [PageAt(file[offset..]).value], opus)
    ensures !IsOggFile(file, opus)
  {
    hide PageAt, Flatten, IsPagesOf, PagesSoFar, Meets;
    SplitsGoOn(file, read, offset);
    forall pages | IsPagesOf(file, pages) && Meets(pages, opus)
      ensures false
    {
      var n := |read| + 1;
      assert pages[..n] == read + [PageAt(file[offset..]).value];
      PrefixPassesSoFar(pages, opus, n);
    }
  }

  lemma {:induction false} PartIsShorter(parts: seq<seq<byte>>, i: nat)
    requires i < |parts|
    ensures |parts[i]| <= |Flatten(parts)|
  {
    if i > 0 {
      PartIsShorter(parts[1..], i - 1);
    }
  }

  lemma PayloadNeedsBytes(pages: seq<seq<byte>>)
    requires PagesShape(pages) && HasPayload(pages)
    ensures |Flatten(pages)| >= OGG_FIXED_HEADER_BYTES + 1
  {
    hide Total, Flatten;
    var i :| 0 <= i < |pages| && PageBody(pages[i]) != [];
    PartIsShorter(pages, i);
  }

  lemma TooShort(file: seq<byte>, opus: bool)
    requires |file| < OGG_FIXED_HEADER_BYTES + 1
    ensures !IsOggFile(file, opus)
  {
    hide IsPage, IsLogicalStream, IsOpusStream, HasPayload, PageShape;
    forall pages | IsPagesOf(file, pages)
      ensures !Meets(pages, opus)
    {
      if HasPayload(pages) {
        PayloadNeedsBytes(pages);
      }
    }
  }

  lemma NotAPage(read: seq<seq<byte>>, page: seq<byte>, opus: bool)
    requires !IsPage(page)
    ensures !PagesSoFar(read + [page], opus)
  {
    hide IsPage, Acceptable, StreamSoFar, PageShape;
    assert (read + [page])[|read|] == page;
  }

  lemma WithOpus(read: seq<seq<byte>>)
    ensures PagesSoFar(read, true) <==> PagesSoFar(read, false) && Acceptable(read)
  {
    hide IsPage, Acceptable, StreamSoFar, PageShape;
  }

  lemma NothingRead(streams: map<nat, OggStreamState>, file: seq<byte>)
    requires streams == map[]
    ensures PagesSoFar([], false) && InStep(streams, []) && Acceptable([]) && !HasPayload([])
    ensures Flatten<byte>([]) == [] && AllSplitsStart(file, [])
  {
  }

  lemma TooManyPages(file: seq<byte>, opus: bool, read: seq<seq<byte>>)
    requires AllSplitsStart(file, read) && |read| >= OGG_MAX_PAGES
    ensures !IsOggFile(file, opus)
  {
    hide IsPage, IsLogicalStream, IsOpusStream;
  }

  lemma WholeFile(file: seq<byte>, opus: bool, read: seq<seq<byte>>)
    requires PagesShape(read) && Flatten(read) == file
    ensures IsOggFile(file, opus) <==> Meets(read, opus)
  {
    hide PageShape, Meets, Flatten;
    if IsOggFile(file, opus) {
      var pages :| IsPagesOf(file, pages) && Meets(pages, opus);
      SplitIsUnique(pages, read);
    }
    if Meets(read, opus) {
      assert IsPagesOf(file, read);
    }
  }

  lemma OpusVerdict(pages: seq<seq<byte>>)
    requires Acceptable(pages) && PagesShape(pages)
    ensures (exists packets :: IsOpusStream(pages, packets)) <==> pages != [] && EndsStream(pages[|pages| - 1])
    ensures pages != [] && EndsStream(pages[|pages| - 1]) ==> IsComplete(Reassembly(pages))
  {
    hide IsOpusStream, PageShape, EndsStream, Reassembly, IsHeadPage, FeedAll, PacketsOk;
    AcceptedToTheEndIffStream(pages);
    if pages != [] && EndsStream(pages[|pages| - 1]) {
      var n := |pages|;
      if n == 1 {
        HeadDoesNotEnd(pages[0]);
      } else {
        AcceptedPage(pages, n - 1);
        ReassemblyStep(pages, n - 1);
        assert pages[..n] == pages;
      }
    }
  }

  lemma Verdict(streams: map<nat, OggStreamState>, read: seq<seq<byte>>, opus: bool)
    requires PagesSoFar(read, false) && PagesShape(read) && InStep(streams, read)
    ensures Meets(read, opus) <==>
              && 0 < |read| < OGG_MAX_PAGES && HasPayload(read)
              && AllFinished(streams)
              && (opus ==> exists packets :: IsOpusStream(read, packets))
  {
    hide IsPage, PageShape, StreamSoFar, InStep, IsLogicalStream, HasPayload, IsOpusStream, OfSerial, AllFinished;
    FinishedStreams(streams, read);
  }

  /** `matchesOggStructure`, with and without the Opus profile. */
  method MatchesOggStructure(file: seq<byte>, requireOpusProfile: bool, table: seq<bv32>) returns (ok: bool)
    requires IsOggTable(table)
    ensures ok <==> IsOggFile(file, requireOpusProfile)
  {
    hide PageShape, Serial, StateAfter, OfSerial, StreamSoFar, Continuing, IsPage, Acceptable, IsOpusStream;
    hide IsOggTable, PageAt, Flatten, InStep, IsLogicalStream, PageBody, Total, Lacing, EndsStream, IsOggFile, AllSplitsStart;
    hide Reassembly, IsComplete, HasPayload, PagesSoFar, LeavesOpen, Sequence, AllFinished;
    if |file| < OGG_FIXED_HEADER_BYTES + 1 {
      TooShort(file, requireOpusProfile);
      return false;
    }
    var streams: map<nat, OggStreamState> := map[];
    var opus := new OggOpusProfile();
    var offset, pages, sawPayload := 0, 0, false;
    ghost var read: seq<seq<byte>> := [];
    NothingRead(streams, file);
    while offset < |file| && pages < OGG_MAX_PAGES
      invariant 0 <= offset <= |file| && pages == |read|
      invariant Flatten(read) == file[..offset] && AllSplitsStart(file, read)
      invariant PagesSoFar(read, false) && PagesShape(read) && InStep(streams, read)
      invariant sawPayload <==> HasPayload(read)
      invariant pages > 0 ==> streams != map[]
      invariant fresh(opus) && fresh(opus.packet)
      invariant requireOpusProfile ==> opus.Valid() && opus.pages == read
    {
      var found := ReadPage(file, offset, table);
      SplitsGoOn(file, read, offset);
      if found == None {
        if PageAt(file[offset..]).Some? {
          NotAPage(read, PageAt(file[offset..]).value, requireOpusProfile);
        }
        RefuseHere(file, requireOpusProfile, read, offset);
        return false;
      }
      var page := found.value;
      var serial := Serial(page);
      var prior := if serial in streams then Some(streams[serial]) else None;
      PagesGrow(streams, read, page);
      WithOpus(read + [page]);
      if !Continuing(prior, page) {
        RefuseHere(file, requireOpusProfile, read, offset);
        return false;
      }
      if requireOpusProfile {
        var accepted := opus.AcceptPage(page);
        if !accepted {
          RefuseHere(file, requireOpusProfile, read, offset);
          return false;
        }
      }
      StateStays(streams, read, page);
      FlattenSnoc(read, page);
      PayloadSeen(read, page);
      streams := streams[serial := StateAfter(page)];
      assert serial in streams;
      sawPayload := sawPayload || PageBody(page) != [];
      offset := offset + |page|;
      pages := pages + 1;
      read := read + [page];
    }
    if offset < |file| {
      TooManyPages(file, requireOpusProfile, read);
      return false;
    }
    assert file[..offset] == file;
    WholeFile(file, requireOpusProfile, read);
    Verdict(streams, read, requireOpusProfile);
    if requireOpusProfile {
      OpusVerdict(read);
      opus.CompleteMeansWholeStream();
    }
    return
      && pages > 0 && pages < OGG_MAX_PAGES && sawPayload && |streams| > 0
      && (!requireOpusProfile || opus.Complete())
      && AllFinished(streams);
  }

  lemma PayloadSeen(read: seq<seq<byte>>, page: seq<byte>)
    requires PagesShape(read) && PageShape(page)
    ensures PagesShape(read + [page])
    ensures HasPayload(read + [page]) <==> HasPayload(read) || PageBody(page) != []
  {
    hide PageShape, PageBody;
    var all := read + [page];
    assert all[|read|] == page && forall i :: 0 <= i < |read| ==> all[i] == read[i];
    if i :| 0 <= i < |all| && PageBody(all[i]) != [] {
      assert i < |read| ==> PageBody(read[i]) != [];
    }
    if i :| 0 <= i < |read| && PageBody(read[i]) != [] {
      assert PageBody(all[i]) != [];
    }
  }

  // ----- interleaving -----

  lemma {:induction false} CountInProjection(pages: seq<seq<byte>>, page: seq<byte>)
    requires PagesShape(pages) && PageShape(page)
    ensures multiset(pages)[page] == multiset(OfSerial(pages, Serial(page)))[page]
    decreases |pages|
  {
    hide PageShape, Serial;
    if pages != [] {
      var init, last := pages[..|pages| - 1], pages[|pages| - 1];
      assert pages == init + [last];
      CountInProjection(init, page);
    }
  }

  lemma SameProjectionsSamePages(a: seq<seq<byte>>, b: seq<seq<byte>>)
    requires PagesShape(a) && PagesShape(b)
    requires forall serial: nat :: OfSerial(a, serial) == OfSerial(b, serial)
    ensures multiset(a) == multiset(b) && |a| == |b|
  {
    hide PageShape, Serial, OfSerial;
    forall page | page in a || page in b
      ensures multiset(a)[page] == multiset(b)[page]
    {
      CountInProjection(a, page);
      CountInProjection(b, page);
      assert OfSerial(a, Serial(page)) == OfSerial(b, Serial(page));
    }
    SameCounts(a, b);
  }

  lemma SameCounts(a: seq<seq<byte>>, b: seq<seq<byte>>)
    requires forall page :: page in a || page in b ==> multiset(a)[page] == multiset(b)[page]
    ensures multiset(a) == multiset(b) && |a| == |b|
  {
    assert multiset(a) == multiset(b) by {
      forall page
        ensures multiset(a)[page] == multiset(b)[page]
      {
        assert page in multiset(a) <==> page in a;
        assert page in multiset(b) <==> page in b;
      }
    }
    assert |multiset(a)| == |a| && |multiset(b)| == |b|;
  }

  /** Only the page list of each serial counts: any interleaving of the same lists is the same verdict. */
  lemma InterleavingDoesNotMatter(a: seq<seq<byte>>, b: seq<seq<byte>>)
    requires PagesShape(a) && PagesShape(b)
    requires forall serial: nat :: OfSerial(a, serial) == OfSerial(b, serial)
    ensures IsOggFile(Flatten(a), false) <==> IsOggFile(Flatten(b), false)
  {
    hide PageShape, OfSerial, Flatten, IsOggFile;
    WholeFile(Flatten(a), false, a);
    WholeFile(Flatten(b), false, b);
    if Meets(a, false) {
      MeetsInterleaved(a, b);
    }
    if Meets(b, false) {
      MeetsInterleaved(b, a);
    }
  }

  lemma MeetsInterleaved(a: seq<seq<byte>>, b: seq<seq<byte>>)
    requires PagesShape(a) && PagesShape(b) && Meets(a, false)
    requires forall serial: nat :: OfSerial(a, serial) == OfSerial(b, serial)
    ensures Meets(b, false)
  {
    hide PageShape, OfSerial, IsPage, IsLogicalStream, PageBody;
    SameProjectionsSamePages(a, b);
    forall i | 0 <= i < |b|
      ensures IsPage(b[i])
    {
      assert b[i] in multiset(b);
      assert b[i] in a;
    }
    var i :| 0 <= i < |a| && PageBody(a[i]) != [];
    assert a[i] in multiset(a);
    assert a[i] in b;
  }
}
