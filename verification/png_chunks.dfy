/**
 * `matchesPngStructure`: the chunk walk over a whole PNG file. A file is accepted exactly when it
 * is the signature followed by chunks whose kinds, contents and checksums are in order.
 */
module PngChunks {
  import opened Bytes
  import opened Wrappers
  import opened Crc
  import opened FrameWalks

  const PNG_MAX_CHUNKS: nat := 10000

  function Signature(): (m: seq<byte>)
    ensures |m| == 8
  {
    [0x89, 0x50, 0x4e, 0x47, 0x0d, 0x0a, 0x1a, 0x0a]
  }

  function Ihdr(): (m: seq<byte>)
    ensures |m| == 4
  {
    [0x49, 0x48, 0x44, 0x52]
  }

  function Plte(): (m: seq<byte>)
    ensures |m| == 4
  {
    [0x50, 0x4c, 0x54, 0x45]
  }

  function Idat(): (m: seq<byte>)
    ensures |m| == 4
  {
    [0x49, 0x44, 0x41, 0x54]
  }

  function Iend(): (m: seq<byte>)
    ensures |m| == 4
  {
    [0x49, 0x45, 0x4e, 0x44]
  }

  // ----- one chunk: length, kind, data, checksum -----

  function ChunkLength(w: seq<byte>): Option<nat>
  {
    if |w| < 8 || 12 + U32BE(w[..4]) > |w| then None else Some(12 + U32BE(w[..4]))
  }

  function ChunkCut(): Cut
  {
    w => ChunkLength(w)
  }

  predicate IsChunk(c: seq<byte>): (ok: bool)
    ensures ok ==> |c| >= 12
  {
    IsFrame(ChunkCut(), c)
  }

  lemma LengthReadsHeader(v: seq<byte>, w: seq<byte>)
    requires |v| >= 8 && |w| >= 8 && v[..8] == w[..8]
    requires ChunkLength(v).Some? && ChunkLength(v).value <= |w|
    ensures ChunkLength(w) == ChunkLength(v)
  {
    hide U32BE;
    assert v[..4] == v[..8][..4] && w[..4] == w[..8][..4];
  }

  lemma LengthBounds(w: seq<byte>)
    requires ChunkLength(w).Some?
    ensures 12 <= ChunkLength(w).value <= |w|
  {
  }

  lemma ChunkIsLocal()
    ensures Local(ChunkCut())
  {
    hide ChunkLength;
    forall f, w | IsFrame(ChunkCut(), f) && f <= w
      ensures ChunkCut()(w) == Some(|f|)
    {
      LengthBounds(f);
      assert w[..8] == f[..8];
      LengthReadsHeader(f, w);
    }
    forall w | ChunkCut()(w).Some?
      ensures ChunkCut()(w).value <= |w| && IsFrame(ChunkCut(), w[..ChunkCut()(w).value])
    {
      LengthBounds(w);
      LengthReadsHeader(w, w[..ChunkLength(w).value]);
    }
  }

  function Kind(c: seq<byte>): (k: seq<byte>)
    requires IsChunk(c)
    ensures |k| == 4
  {
    c[4..8]
  }

  function Data(c: seq<byte>): seq<byte>
    requires IsChunk(c)
  {
    c[8..|c| - 4]
  }

  predicate IsLetter(b: byte)
  {
    0x41 <= b <= 0x5a || 0x61 <= b <= 0x7a
  }

  predicate IsUpper(b: byte)
  {
    0x41 <= b <= 0x5a
  }

  /** Four letters, the third a capital; a critical kind must be one of the four known ones. */
  predicate IsKnownKind(kind: seq<byte>)
    requires |kind| == 4
  {
    && IsLetter(kind[0]) && IsLetter(kind[1]) && IsUpper(kind[2]) && IsLetter(kind[3])
    && (IsUpper(kind[0]) ==> kind == Ihdr() || kind == Plte() || kind == Idat() || kind == Iend())
  }

  ghost predicate ChecksumOk(c: seq<byte>)
    requires IsChunk(c)
  {
    ChunkChecksumHolds(c, Kind(c), 8, |c| - 12, |c| - 4)
  }

  /** Size, colour type and bit depth allowed by RFC 2083 section 4.1.1. */
  predicate IsValidIhdr(data: seq<byte>)
  {
    && |data| == 13
    && U32BE(data[..4]) > 0 && U32BE(data[4..8]) > 0
    && data[10] == 0 && data[11] == 0 && data[12] < 2
    && var depth := data[8];
       match data[9]
       case 0 => depth in {1, 2, 4, 8, 16}
       case 2 => depth in {8, 16}
       case 3 => depth in {1, 2, 4, 8}
       case 4 => depth in {8, 16}
       case 6 => depth in {8, 16}
       case _ => false
  }

  /** A palette: whole colours, no more than the bit depth can index, and not for greyscale. */
  predicate IsValidPlte(data: seq<byte>, colorType: byte, bitDepth: byte)
  {
    && 0 < |data| <= 768 && |data| % 3 == 0
    && colorType != 0 && colorType != 4
    && (colorType == 3 ==> |data| / 3 <= Pow2(bitDepth))
  }

  // ----- chunk lists -----

  predicate AllChunks(chunks: seq<seq<byte>>)
  {
    forall i :: 0 <= i < |chunks| ==> IsChunk(chunks[i])
  }

  ghost predicate Has(chunks: seq<seq<byte>>, kind: seq<byte>)
    requires AllChunks(chunks)
  {
    exists j :: 0 <= j < |chunks| && Kind(chunks[j]) == kind
  }

  /** Image data was interrupted by another chunk. */
  ghost predicate IdatClosed(chunks: seq<seq<byte>>)
    requires AllChunks(chunks)
  {
    exists j, k :: 0 <= j < k < |chunks| && Kind(chunks[j]) == Idat() && Kind(chunks[k]) != Idat()
  }

  predicate HasHeader(chunks: seq<seq<byte>>)
    requires AllChunks(chunks)
  {
    chunks != [] && IsValidIhdr(Data(chunks[0]))
  }

  /** The chunk may follow these: kinds in order, contents valid, checksum right. */
  ghost predicate Follows(before: seq<seq<byte>>, c: seq<byte>)
    requires AllChunks(before) && IsChunk(c)
    requires before != [] ==> HasHeader(before)
  {
    && IsKnownKind(Kind(c)) && ChecksumOk(c)
    && (Kind(c) == Ihdr() <==> before == [])
    && (before == [] ==> IsValidIhdr(Data(c)))
    && (Kind(c) == Plte() ==>
          !Has(before, Plte()) && !Has(before, Idat()) && IsValidPlte(Data(c), Data(before[0])[9], Data(before[0])[8]))
    && (Kind(c) == Idat() ==> !IdatClosed(before) && (Data(before[0])[9] == 3 ==> Has(before, Plte())))
  }

  ghost predicate InOrder(chunks: seq<seq<byte>>)
    decreases |chunks|
  {
    && AllChunks(chunks)
    && (chunks != [] ==>
          var before := chunks[..|chunks| - 1];
          && InOrder(before) && (before != [] ==> HasHeader(before))
          && Follows(before, chunks[|chunks| - 1]))
  }

  /** Only the last chunk ends the image. */
  ghost predicate NotEnded(chunks: seq<seq<byte>>)
    requires AllChunks(chunks)
  {
    !Has(chunks, Iend())
  }

  ghost predicate IsPng(chunks: seq<seq<byte>>)
  {
    && 0 < |chunks| <= PNG_MAX_CHUNKS && InOrder(chunks)
    && var before, last := chunks[..|chunks| - 1], chunks[|chunks| - 1];
       NotEnded(before) && Has(before, Idat()) && Kind(last) == Iend() && Data(last) == []
  }

  ghost predicate IsPngFile(file: seq<byte>)
  {
    && Signature() <= file
    && exists chunks :: IsSplit(ChunkCut(), file[8..], chunks) && IsPng(chunks)
  }

  // ----- what the order means -----

  lemma {:induction false} OrderOfPrefix(chunks: seq<seq<byte>>, n: nat)
    requires InOrder(chunks) && n <= |chunks|
    ensures InOrder(chunks[..n])
    decreases |chunks|
  {
    hide Follows, IsChunk, HasHeader;
    if n < |chunks| {
      OrderOfPrefix(chunks[..|chunks| - 1], n);
      assert chunks[..|chunks| - 1][..n] == chunks[..n];
    } else {
      assert chunks[..n] == chunks;
    }
  }

  lemma LastFollows(chunks: seq<seq<byte>>, n: nat)
    requires InOrder(chunks) && n < |chunks|
    ensures AllChunks(chunks[..n]) && IsChunk(chunks[n]) && (n > 0 ==> HasHeader(chunks[..n])) && Follows(chunks[..n], chunks[n])
  {
    hide Follows, IsChunk, HasHeader;
    OrderOfPrefix(chunks, n + 1);
    assert chunks[..n + 1][..n] == chunks[..n];
  }

  /** In an accepted file the header comes first and once, the image data is contiguous, and a palette precedes it. */
  lemma OrderMeans(chunks: seq<seq<byte>>, i: nat, k: nat)
    requires IsPng(chunks) && i < |chunks| && k < |chunks|
    ensures Kind(chunks[i]) == Ihdr() <==> i == 0
    ensures Kind(chunks[i]) == Iend() <==> i == |chunks| - 1
    ensures Kind(chunks[i]) == Plte() && Kind(chunks[k]) == Plte() ==> i == k
    ensures Kind(chunks[i]) == Plte() && Kind(chunks[k]) == Idat() ==> i < k
    ensures Kind(chunks[i]) == Idat() && Kind(chunks[k]) == Idat() ==>
              forall j :: i <= j <= k ==> Kind(chunks[j]) == Idat()
  {
    hide IsChunk, HasHeader, IsKnownKind, ChecksumOk, IsValidIhdr, IsValidPlte, InOrder, Kind, Data;
    LastFollows(chunks, i);
    LastFollows(chunks, k);
    var n := |chunks| - 1;
    assert forall j :: 0 <= j < n ==> chunks[..n][j] == chunks[j];
    assert forall j :: 0 <= j < i ==> chunks[..i][j] == chunks[j];
    assert forall j :: 0 <= j < k ==> chunks[..k][j] == chunks[j];
    KindsDiffer();
  }

  lemma KindsDiffer()
    ensures Ihdr() != Plte() && Ihdr() != Idat() && Ihdr() != Iend()
    ensures Plte() != Idat() && Plte() != Iend() && Idat() != Iend()
  {
    assert Ihdr()[1] == 0x48 && Plte()[1] == 0x4c && Idat()[1] == 0x44 && Iend()[1] == 0x45;
  }

  // ----- the walk -----

  lemma HasSnoc(chunks: seq<seq<byte>>, c: seq<byte>, kind: seq<byte>)
    requires AllChunks(chunks) && IsChunk(c)
    ensures AllChunks(chunks + [c])
    ensures Has(chunks + [c], kind) <==> Has(chunks, kind) || Kind(c) == kind
  {
    hide IsChunk, Kind;
    var all := chunks + [c];
    assert all[|chunks|] == c && forall j :: 0 <= j < |chunks| ==> all[j] == chunks[j];
    if Has(chunks, kind) {
      var j :| 0 <= j < |chunks| && Kind(chunks[j]) == kind;
      assert Kind(all[j]) == kind;
    }
  }

  lemma ClosedSnoc(chunks: seq<seq<byte>>, c: seq<byte>)
    requires AllChunks(chunks) && IsChunk(c)
    ensures AllChunks(chunks + [c])
    ensures IdatClosed(chunks + [c]) <==> IdatClosed(chunks) || (Has(chunks, Idat()) && Kind(c) != Idat())
  {
    hide IsChunk, Kind;
    var all, n := chunks + [c], |chunks|;
    assert all[n] == c && forall j :: 0 <= j < n ==> all[j] == chunks[j];
    if IdatClosed(chunks) {
      var j, k :| 0 <= j < k < n && Kind(chunks[j]) == Idat() && Kind(chunks[k]) != Idat();
      assert Kind(all[j]) == Idat() && Kind(all[k]) != Idat();
    }
    if Has(chunks, Idat()) && Kind(c) != Idat() {
      var j :| 0 <= j < n && Kind(chunks[j]) == Idat();
      assert Kind(all[j]) == Idat() && Kind(all[n]) != Idat();
    }
    if IdatClosed(all) {
      var j, k :| 0 <= j < k < |all| && Kind(all[j]) == Idat() && Kind(all[k]) != Idat();
      assert Kind(chunks[j]) == Idat();
    }
  }

  /** The flags of the loop say what the chunks so far contain. */
  datatype Seen = Seen(ihdr: bool, plte: bool, idat: bool, idatClosed: bool, colorType: byte, bitDepth: byte)

  ghost predicate Describes(seen: Seen, chunks: seq<seq<byte>>)
    requires AllChunks(chunks)
  {
    && (seen.ihdr <==> chunks != []) && (chunks != [] ==> HasHeader(chunks))
    && (seen.plte <==> Has(chunks, Plte())) && (seen.idat <==> Has(chunks, Idat()))
    && (seen.idatClosed <==> IdatClosed(chunks))
    && (chunks != [] ==> seen.colorType == Data(chunks[0])[9] && seen.bitDepth == Data(chunks[0])[8])
  }

  function SeenAfter(seen: Seen, kind: seq<byte>, data: seq<byte>): Seen
    requires |kind| == 4 && (kind == Ihdr() ==> |data| == 13)
  {
    Seen(
      seen.ihdr || kind == Ihdr(),
      seen.plte || kind == Plte(),
      seen.idat || kind == Idat(),
      seen.idatClosed || (seen.idat && kind != Idat()),
      if kind == Ihdr() then data[9] else seen.colorType,
      if kind == Ihdr() then data[8] else seen.bitDepth)
  }

  lemma StillDescribes(seen: Seen, chunks: seq<seq<byte>>, c: seq<byte>)
    requires AllChunks(chunks) && Describes(seen, chunks) && IsChunk(c) && Follows(chunks, c)
    ensures (Kind(c) == Ihdr() ==> |Data(c)| == 13) && AllChunks(chunks + [c])
    ensures Describes(SeenAfter(seen, Kind(c), Data(c)), chunks + [c])
  {
    hide IsChunk, Kind, Data, IsKnownKind, ChecksumOk, IsValidPlte, IdatClosed, Has;
    HasSnoc(chunks, c, Plte());
    HasSnoc(chunks, c, Idat());
    ClosedSnoc(chunks, c);
    KindsDiffer();
  }

  lemma SliceOfSlice(file: seq<byte>, offset: nat, n: nat, from: nat, to: nat)
    requires offset + n <= |file| && from <= to <= n
    ensures file[offset..offset + n][from..to] == file[offset + from..offset + to]
  {
    var c := file[offset..offset + n];
    assert forall k :: from <= k < to ==> c[k] == file[offset + k];
    assert c[from..to] == file[offset + from..offset + to];
  }

  lemma DropSlice(file: seq<byte>, from: nat, to: nat)
    requires |file| >= 8 && from <= to <= |file[8..]|
    ensures file[8..][from..to] == file[8 + from..8 + to]
  {
  }

  lemma SameChecksum(file: seq<byte>, offset: nat, c: seq<byte>)
    requires IsChunk(c) && offset + |c| <= |file| && file[offset..offset + |c|] == c
    ensures ChecksumOk(c) <==> ChunkChecksumHolds(file, Kind(c), offset + 8, |c| - 12, offset + |c| - 4)
  {
    hide IsChunk, Finished, PngCrc, U32BE;
    var n := |c|;
    SliceOfSlice(file, offset, n, 8, n - 4);
    SliceOfSlice(file, offset, n, n - 4, n);
    assert file[offset..offset + n][8..n - 4] == c[8..n - 4] && file[offset..offset + n][n - 4..n] == c[n - 4..n];
    assert c[8..8 + (n - 12)] == file[offset + 8..offset + 8 + (n - 12)];
    assert c[n - 4..n - 4 + 4] == file[offset + n - 4..offset + n - 4 + 4];
  }

  /** The checks of one round of the loop. */
  method ChunkFollows(table: seq<bv32>, file: seq<byte>, offset: nat, c: seq<byte>, seen: Seen, ghost before: seq<seq<byte>>)
    returns (ok: bool)
    requires IsPngTable(table) && IsChunk(c) && offset + |c| <= |file| && file[offset..offset + |c|] == c
    requires AllChunks(before) && Describes(seen, before)
    ensures ok <==> Follows(before, c)
  {
    hide IsPngTable, Has, IdatClosed, HasHeader, ChunkChecksumHolds, IsValidIhdr, IsValidPlte, IsKnownKind, Data, Kind, IsChunk;
    KindsDiffer();
    var kind := Kind(c);
    if !IsKnownKind(kind) || (!seen.ihdr && kind != Ihdr()) {
      return false;
    }
    if kind == Ihdr() && (seen.ihdr || !IsValidIhdr(Data(c))) {
      return false;
    }
    if kind == Plte() && (seen.plte || seen.idat || !IsValidPlte(Data(c), seen.colorType, seen.bitDepth)) {
      return false;
    }
    if kind == Idat() && (seen.idatClosed || (seen.colorType == 3 && !seen.plte)) {
      return false;
    }
    SameChecksum(file, offset, c);
    ok := ValidatePngChunkCrc(table, file, kind, offset + 8, |c| - 12, offset + |c| - 4);
  }

  ghost predicate WalkedTo(region: seq<byte>, offset: nat, walked: seq<seq<byte>>, seen: Seen)
  {
    && Walking(ChunkCut(), region, offset, walked)
    && InOrder(walked) && Describes(seen, walked) && NotEnded(walked)
  }

  lemma InOrderSnoc(walked: seq<seq<byte>>, c: seq<byte>, seen: Seen)
    requires InOrder(walked) && Describes(seen, walked) && IsChunk(c) && Follows(walked, c)
    ensures InOrder(walked + [c])
  {
    hide Follows, IsChunk, HasHeader;
    assert (walked + [c])[..|walked|] == walked;
  }

  lemma Forces(region: seq<byte>, walked: seq<seq<byte>>, c: seq<byte>, chunks: seq<seq<byte>>)
    requires Forced(ChunkCut(), region, walked + [c]) && IsSplit(ChunkCut(), region, chunks)
    ensures |walked| < |chunks| && chunks[..|walked|] == walked && chunks[|walked|] == c
  {
    assert walked + [c] <= chunks;
    assert chunks[..|walked| + 1] == walked + [c];
  }

  lemma Refuse(file: seq<byte>, walked: seq<seq<byte>>, c: seq<byte>, seen: Seen)
    requires Signature() <= file && Forced(ChunkCut(), file[8..], walked + [c])
    requires AllChunks(walked) && IsChunk(c) && Describes(seen, walked) && !Follows(walked, c)
    ensures !IsPngFile(file)
  {
    hide IsSplit, Follows, Forced, IsChunk, Describes, HasHeader, Has;
    forall chunks | IsSplit(ChunkCut(), file[8..], chunks)
      ensures !IsPng(chunks)
    {
      Forces(file[8..], walked, c, chunks);
      if IsPng(chunks) {
        LastFollows(chunks, |walked|);
      }
    }
  }

  lemma EndVerdict(file: seq<byte>, offset: nat, walked: seq<seq<byte>>, c: seq<byte>, seen: Seen)
    requires Signature() <= file && Walking(ChunkCut(), file[8..], offset, walked + [c])
    requires AllChunks(walked) && InOrder(walked) && Describes(seen, walked) && NotEnded(walked)
    requires IsChunk(c) && Follows(walked, c) && Kind(c) == Iend() && |walked| < PNG_MAX_CHUNKS
    ensures IsPngFile(file) <==> Data(c) == [] && Has(walked, Idat()) && offset == |file[8..]|
  {
    hide IsChunk, Follows, HasHeader, Has, Kind, Data;
    var all, region := walked + [c], file[8..];
    InOrderSnoc(walked, c, seen);
    assert all[..|walked|] == walked;
    if Data(c) == [] && Has(walked, Idat()) && offset == |region| {
      assert region[..offset] == region;
      assert IsPng(all) && IsSplit(ChunkCut(), region, all);
    }
    forall chunks | IsSplit(ChunkCut(), region, chunks) && IsPng(chunks)
      ensures chunks == all && offset == |region|
    {
      Forces(region, walked, c, chunks);
      EndIsLast(chunks, |walked|);
      assert chunks == all;
    }
  }

  lemma EndIsLast(chunks: seq<seq<byte>>, n: nat)
    requires IsPng(chunks) && n < |chunks| && Kind(chunks[n]) == Iend()
    ensures n == |chunks| - 1
  {
    OrderMeans(chunks, n, n);
  }

  lemma NoEnd(file: seq<byte>, offset: nat, walked: seq<seq<byte>>)
    requires Signature() <= file && Walking(ChunkCut(), file[8..], offset, walked)
    requires AllChunks(walked) && NotEnded(walked) && (offset == |file[8..]| || |walked| >= PNG_MAX_CHUNKS)
    ensures !IsPngFile(file)
  {
    hide IsChunk, InOrder, Kind, Data;
    var region := file[8..];
    forall chunks | IsSplit(ChunkCut(), region, chunks)
      ensures !IsPng(chunks)
    {
      assert walked <= chunks;
      assert |chunks| <= |walked| ==> chunks == walked;
      if offset == |region| {
        assert region[..offset] == region;
        WholeRegion(ChunkCut(), walked, chunks);
      }
    }
  }

  lemma TooShort(file: seq<byte>)
    requires |file| < 20
    ensures !IsPngFile(file)
  {
    hide Kind, Data;
    forall chunks | Signature() <= file && IsSplit(ChunkCut(), file[8..], chunks)
      ensures !IsPng(chunks)
    {
      if chunks != [] {
        assert IsFrame(ChunkCut(), chunks[0]);
        assert |Flatten(chunks)| >= |chunks[0]|;
      }
    }
  }

  lemma NothingSeen(region: seq<byte>)
    ensures WalkedTo(region, 0, [], Seen(false, false, false, false, 0, 0))
  {
    WalkStarts(ChunkCut(), region);
  }

  lemma StopsHere(file: seq<byte>, offset: nat, walked: seq<seq<byte>>)
    requires Signature() <= file && Walking(ChunkCut(), file[8..], offset, walked) && offset < |file[8..]|
    requires ChunkCut()(file[8..][offset..]) == None
    ensures !IsPngFile(file)
  {
    hide ChunkCut, Local, Walking, IsPng;
    ChunkIsLocal();
    forall chunks | IsSplit(ChunkCut(), file[8..], chunks)
      ensures false
    {
      NextIsForced(ChunkCut(), file[8..], offset, walked, chunks);
    }
  }

  /** `matchesPngStructure`. */
  method MatchesPngStructure(file: seq<byte>, table: seq<bv32>) returns (ok: bool)
    requires IsPngTable(table)
    ensures ok <==> IsPngFile(file)
  {
    hide IsPngTable, Local, Walking, InOrder, Describes, Follows, IsPngFile, ChunkCut, IsSplit, Forced, Kind, Data, NotEnded;
    if |file| < 20 {
      TooShort(file);
      return false;
    }
    if file[..8] != Signature() {
      NotSigned(file);
      return false;
    }
    ghost var region := file[8..];
    ghost var walked: seq<seq<byte>> := [];
    var offset, chunkCount := 8, 0;
    var seen := Seen(false, false, false, false, 0, 0);
    NothingSeen(region);
    ChunkIsLocal();
    while offset < |file| && chunkCount < PNG_MAX_CHUNKS
      invariant 8 <= offset <= |file| && chunkCount == |walked| && AllChunks(walked)
      invariant WalkedTo(region, offset - 8, walked, seen)
    {
      assert region[offset - 8..] == file[offset..];
      var chunkBytes := ChunkCut()(file[offset..]);
      if chunkBytes == None {
        StopsHere(file, offset - 8, walked);
        return false;
      }
      ghost var next := WalkGoesOn(ChunkCut(), region, offset - 8, walked);
      var c := file[offset..offset + chunkBytes.value];
      DropSlice(file, offset - 8, offset - 8 + chunkBytes.value);
      assert c == next;
      WalkedChunks(region, offset - 8 + chunkBytes.value, walked, c);
      var follows := ChunkFollows(table, file, offset, c, seen, walked);
      if !follows {
        Refuse(file, walked, c, seen);
        return false;
      }
      offset := offset + |c|;
      if Kind(c) == Iend() {
        EndVerdict(file, offset - 8, walked, c, seen);
        DescribesIdat(seen, walked);
        return Data(c) == [] && seen.idat && offset == |file|;
      }
      StillDescribes(seen, walked, c);
      InOrderSnoc(walked, c, seen);
      StillNotEnded(walked, c);
      seen := SeenAfter(seen, Kind(c), Data(c));
      walked := walked + [c];
      chunkCount := chunkCount + 1;
    }
    NoEnd(file, offset - 8, walked);
    return false;
  }

  lemma NotSigned(file: seq<byte>)
    requires |file| >= 8 && file[..8] != Signature()
    ensures !IsPngFile(file)
  {
  }

  lemma DescribesIdat(seen: Seen, walked: seq<seq<byte>>)
    requires AllChunks(walked) && Describes(seen, walked)
    ensures seen.idat <==> Has(walked, Idat())
  {
  }

  lemma StillNotEnded(walked: seq<seq<byte>>, c: seq<byte>)
    requires AllChunks(walked) && IsChunk(c) && NotEnded(walked) && Kind(c) != Iend()
    ensures AllChunks(walked + [c]) && NotEnded(walked + [c])
  {
    HasSnoc(walked, c, Iend());
  }

  lemma WalkedChunks(region: seq<byte>, offset: nat, walked: seq<seq<byte>>, c: seq<byte>)
    requires Walking(ChunkCut(), region, offset, walked + [c])
    ensures IsChunk(c) && Forced(ChunkCut(), region, walked + [c]) && AllChunks(walked + [c])
  {
    hide ChunkCut;
    assert (walked + [c])[|walked|] == c;
  }
}
