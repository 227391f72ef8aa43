/** The ZIP central directory (APPNOTE 4.3.12) and its end record (APPNOTE 4.3.16), as the OOXML check reads them. */
module ZipDirectory {
  import opened Bytes
  import opened Wrappers
  import opened FrameWalks

  const CENTRAL_SIGNATURE: nat := 0x02014b50
  const END_SIGNATURE: nat := 0x06054b50
  const END_BYTES: nat := 22
  const MAX_SEARCH_BYTES: nat := 22 + 65535
  const ZIP16_MAX: nat := 0xffff
  const ZIP32_MAX: nat := 0xffff_ffff

  // ----- little-endian fields -----

  function LE16(n: nat): (s: seq<byte>)
    ensures |s| == 2
  {
    [n % 256, n / 256 % 256]
  }

  function LE32(n: nat): (s: seq<byte>)
    ensures |s| == 4
  {
    LE16(n % 0x1_0000) + LE16(n / 0x1_0000)
  }

  lemma Write16Read(n: nat)
    requires n < 0x1_0000
    ensures U16LE(LE16(n), 0) == n
  {
  }

  lemma Read16Write(s: seq<byte>)
    requires |s| == 2
    ensures LE16(U16LE(s, 0)) == s
  {
  }

  lemma Write32Read(n: nat)
    requires n < 0x1_0000_0000
    ensures U32LE(LE32(n), 0) == n
  {
    hide LE16, U16LE;
    Write16Read(n % 0x1_0000);
    Write16Read(n / 0x1_0000);
    Shift16(LE32(n), 0, 2, 0);
    Shift16(LE32(n), 2, 4, 2);
    assert LE32(n)[0..2] == LE16(n % 0x1_0000) && LE32(n)[2..4] == LE16(n / 0x1_0000);
  }

  lemma Read32Write(s: seq<byte>)
    requires |s| == 4
    ensures LE32(U32LE(s, 0)) == s
  {
    hide LE16, U16LE;
    Read16Write(s[0..2]);
    Read16Write(s[2..4]);
    Shift16(s, 0, 2, 0);
    Shift16(s, 2, 4, 2);
    assert s == s[0..2] + s[2..4];
  }

  lemma Shift16(s: seq<byte>, from: nat, to: nat, at: nat)
    requires from <= at && at + 2 <= to <= |s|
    ensures U16LE(s, at) == U16LE(s[from..to], at - from)
  {
  }

  lemma Shift32(s: seq<byte>, from: nat, to: nat, at: nat)
    requires from <= at && at + 4 <= to <= |s|
    ensures U32LE(s, at) == U32LE(s[from..to], at - from)
  {
  }

  // ----- one record -----

  /** A record of an unencrypted entry on this disk; `versions`, `middle` and `attributes` are not looked at. */
  datatype Record = Record(
    versions: seq<byte>, flags: nat, middle: seq<byte>, compressed: nat, uncompressed: nat,
    attributes: seq<byte>, localHeaderOffset: nat, name: seq<byte>, extra: seq<byte>, comment: seq<byte>)

  predicate IsRecord(r: Record)
  {
    && |r.versions| == 4 && |r.middle| == 10 && |r.attributes| == 6
    && r.flags < 0x1_0000 && r.flags % 2 == 0
    && r.compressed < ZIP32_MAX && r.uncompressed < ZIP32_MAX && r.localHeaderOffset < ZIP32_MAX
    && 0 < |r.name| < 0x1_0000 && |r.extra| < 0x1_0000 && |r.comment| < 0x1_0000
    && 0 !in r.name
  }

  function Lengths(r: Record): (s: seq<byte>)
    ensures |s| == 8
  {
    LE16(|r.name|) + LE16(|r.extra|) + LE16(|r.comment|) + LE16(0)
  }

  function Header(r: Record): (h: seq<byte>)
    requires |r.versions| == 4 && |r.middle| == 10 && |r.attributes| == 6
    ensures |h| == 46
  {
    (LE32(CENTRAL_SIGNATURE) + r.versions) + (LE16(r.flags) + r.middle) + (LE32(r.compressed) + LE32(r.uncompressed))
    + Lengths(r) + (r.attributes + LE32(r.localHeaderOffset))
  }

  function Print(r: Record): seq<byte>
    requires |r.versions| == 4 && |r.middle| == 10 && |r.attributes| == 6
  {
    Header(r) + r.name + r.extra + r.comment
  }

  function RecordLength(w: seq<byte>): (n: nat)
    requires |w| >= 46
    ensures n >= 46
  {
    46 + U16LE(w, 28) + U16LE(w, 30) + U16LE(w, 32)
  }

  /** The record check of `parseCentralDirectory`. */
  function RecordAt(w: seq<byte>): Option<nat>
  {
    if |w| < 46 || U32LE(w, 0) != CENTRAL_SIGNATURE then None
    else if U16LE(w, 8) % 2 == 1 || U32LE(w, 20) == ZIP32_MAX || U32LE(w, 24) == ZIP32_MAX
            || U32LE(w, 42) == ZIP32_MAX || U16LE(w, 34) != 0 || U16LE(w, 28) == 0 || RecordLength(w) > |w| then None
    else if 0 in w[46..46 + U16LE(w, 28)] then None
    else Some(RecordLength(w))
  }

  function RecordCut(): Cut
  {
    w => RecordAt(w)
  }

  function NameOf(s: seq<byte>): seq<byte>
    requires IsFrame(RecordCut(), s)
  {
    s[46..46 + U16LE(s, 28)]
  }

  function OffsetOf(s: seq<byte>): nat
    requires IsFrame(RecordCut(), s)
  {
    U32LE(s, 42)
  }

  lemma SameFields(v: seq<byte>, w: seq<byte>, at: nat)
    requires |v| >= 46 && |w| >= 46 && v[..46] == w[..46] && at + 4 <= 46
    ensures U16LE(v, at) == U16LE(w, at) && U32LE(v, at) == U32LE(w, at)
  {
    Shift16(v, 0, 46, at);
    Shift16(w, 0, 46, at);
    Shift32(v, 0, 46, at);
    Shift32(w, 0, 46, at);
  }

  lemma SameRecord(v: seq<byte>, w: seq<byte>)
    requires v <= w && |v| >= 46 && RecordLength(v) <= |v|
    ensures |w| >= 46 && RecordAt(v) == RecordAt(w)
  {
    hide U16LE, U32LE;
    assert v[..46] == w[..46];
    SameFields(v, w, 0);
    SameFields(v, w, 8);
    SameFields(v, w, 20);
    SameFields(v, w, 24);
    SameFields(v, w, 28);
    SameFields(v, w, 30);
    SameFields(v, w, 32);
    SameFields(v, w, 34);
    SameFields(v, w, 42);
    assert w[46..46 + U16LE(w, 28)] == v[46..46 + U16LE(v, 28)];
  }

  lemma PrefixKeepsRecordLength(w: seq<byte>, n: nat)
    requires 46 <= n <= |w|
    ensures RecordLength(w[..n]) == RecordLength(w)
  {
    hide U16LE;
    assert w[..n][..46] == w[..46];
    SameFields(w[..n], w, 28);
    SameFields(w[..n], w, 30);
    SameFields(w[..n], w, 32);
  }

  lemma RecordIsLocal()
    ensures Local(RecordCut())
  {
    hide U16LE, U32LE, RecordLength;
    forall f, w | IsFrame(RecordCut(), f) && f <= w
      ensures RecordCut()(w) == Some(|f|)
    {
      SameRecord(f, w);
    }
    forall w | RecordCut()(w).Some?
      ensures RecordCut()(w).value <= |w| && IsFrame(RecordCut(), w[..RecordCut()(w).value])
    {
      var n := RecordLength(w);
      PrefixKeepsRecordLength(w, n);
      SameRecord(w[..n], w);
    }
  }

  // ----- print and parse -----

  lemma HeaderParts(r: Record)
    requires |r.versions| == 4 && |r.middle| == 10 && |r.attributes| == 6
    ensures var h := Header(r);
            && h[0..4] == LE32(CENTRAL_SIGNATURE) && h[4..8] == r.versions
            && h[8..10] == LE16(r.flags) && h[10..20] == r.middle
            && h[20..24] == LE32(r.compressed) && h[24..28] == LE32(r.uncompressed)
            && h[28..30] == LE16(|r.name|) && h[30..32] == LE16(|r.extra|) && h[32..34] == LE16(|r.comment|) && h[34..36] == LE16(0)
            && h[36..42] == r.attributes && h[42..46] == LE32(r.localHeaderOffset)
  {
    hide LE16, LE32;
  }

  lemma PrintedFields(r: Record)
    requires IsRecord(r)
    ensures var s := Print(r);
            && |s| == 46 + |r.name| + |r.extra| + |r.comment|
            && U32LE(s, 0) == CENTRAL_SIGNATURE && U16LE(s, 8) == r.flags
            && U32LE(s, 20) == r.compressed && U32LE(s, 24) == r.uncompressed
            && U16LE(s, 28) == |r.name| && U16LE(s, 30) == |r.extra| && U16LE(s, 32) == |r.comment| && U16LE(s, 34) == 0
            && U32LE(s, 42) == r.localHeaderOffset
            && s[46..46 + |r.name|] == r.name
  {
    hide LE16, LE32, U16LE, U32LE, Header;
    var s, h := Print(r), Header(r);
    HeaderParts(r);
    assert s[..46] == h;
    assert s[46..46 + |r.name|] == r.name;
    ReadBack32(s, h, 0, CENTRAL_SIGNATURE);
    ReadBack16(s, h, 8, r.flags);
    ReadBack32(s, h, 20, r.compressed);
    ReadBack32(s, h, 24, r.uncompressed);
    ReadBack16(s, h, 28, |r.name|);
    ReadBack16(s, h, 30, |r.extra|);
    ReadBack16(s, h, 32, |r.comment|);
    ReadBack16(s, h, 34, 0);
    ReadBack32(s, h, 42, r.localHeaderOffset);
  }

  lemma ReadBack16(s: seq<byte>, h: seq<byte>, at: nat, n: nat)
    requires |h| == 46 <= |s| && s[..46] == h && at + 2 <= 46 && n < 0x1_0000 && h[at..at + 2] == LE16(n)
    ensures U16LE(s, at) == n
  {
    hide LE16, U16LE;
    Shift16(s, 0, 46, at);
    Shift16(h, at, at + 2, at);
    Write16Read(n);
  }

  lemma ReadBack32(s: seq<byte>, h: seq<byte>, at: nat, n: nat)
    requires |h| == 46 <= |s| && s[..46] == h && at + 4 <= 46 && n < 0x1_0000_0000 && h[at..at + 4] == LE32(n)
    ensures U32LE(s, at) == n
  {
    hide LE32, U32LE;
    Shift32(s, 0, 46, at);
    Shift32(h, at, at + 4, at);
    Write32Read(n);
  }

  /** A printed record is a record of the directory, with its name and offset. */
  lemma PrintThenRead(r: Record)
    requires IsRecord(r)
    ensures IsFrame(RecordCut(), Print(r)) && NameOf(Print(r)) == r.name && OffsetOf(Print(r)) == r.localHeaderOffset
  {
    hide U16LE, U32LE, Print;
    PrintedFields(r);
  }

  function ReadRecord(s: seq<byte>): Record
    requires IsFrame(RecordCut(), s)
  {
    var n, e := 46 + U16LE(s, 28), 46 + U16LE(s, 28) + U16LE(s, 30);
    Record(s[4..8], U16LE(s, 8), s[10..20], U32LE(s, 20), U32LE(s, 24), s[36..42], U32LE(s, 42), s[46..n], s[n..e], s[e..])
  }

  lemma Rewrite16(s: seq<byte>, at: nat)
    requires at + 2 <= |s|
    ensures LE16(U16LE(s, at)) == s[at..at + 2]
  {
    hide LE16, U16LE;
    Shift16(s, at, at + 2, at);
    Read16Write(s[at..at + 2]);
  }

  lemma Rewrite32(s: seq<byte>, at: nat)
    requires at + 4 <= |s|
    ensures LE32(U32LE(s, at)) == s[at..at + 4]
  {
    hide LE32, U32LE;
    Shift32(s, at, at + 4, at);
    Read32Write(s[at..at + 4]);
  }

  lemma ReadThenPrint(s: seq<byte>)
    requires IsFrame(RecordCut(), s)
    ensures IsRecord(ReadRecord(s)) && Print(ReadRecord(s)) == s
  {
    hide LE16, LE32, U16LE, U32LE;
    var r := ReadRecord(s);
    Rewrite32(s, 0);
    Rewrite16(s, 8);
    Rewrite32(s, 20);
    Rewrite32(s, 24);
    Rewrite16(s, 28);
    Rewrite16(s, 30);
    Rewrite16(s, 32);
    Rewrite16(s, 34);
    Rewrite32(s, 42);
    HeaderIsPrefix(s, r);
    assert s == s[..46] + r.name + r.extra + r.comment;
  }

  lemma HeaderIsPrefix(s: seq<byte>, r: Record)
    requires |s| >= 46 && |r.versions| == 4 && |r.middle| == 10 && |r.attributes| == 6
    requires s[0..4] == LE32(CENTRAL_SIGNATURE) && s[4..8] == r.versions && s[8..10] == LE16(r.flags) && s[10..20] == r.middle
    requires s[20..24] == LE32(r.compressed) && s[24..28] == LE32(r.uncompressed)
    requires s[28..30] == LE16(|r.name|) && s[30..32] == LE16(|r.extra|) && s[32..34] == LE16(|r.comment|) && s[34..36] == LE16(0)
    requires s[36..42] == r.attributes && s[42..46] == LE32(r.localHeaderOffset)
    ensures Header(r) == s[..46]
  {
    hide LE16, LE32;
    Adjoin(s, 0, 4, 8);
    Adjoin(s, 8, 10, 20);
    Adjoin(s, 20, 24, 28);
    Adjoin(s, 28, 30, 32);
    Adjoin(s, 28, 32, 34);
    Adjoin(s, 28, 34, 36);
    Adjoin(s, 36, 42, 46);
    Adjoin(s, 0, 8, 20);
    Adjoin(s, 0, 20, 28);
    Adjoin(s, 0, 28, 36);
    Adjoin(s, 0, 36, 46);
    assert s[0..46] == s[..46];
  }

  lemma Adjoin(s: seq<byte>, i: nat, j: nat, k: nat)
    requires i <= j <= k <= |s|
    ensures s[i..j] + s[j..k] == s[i..k]
  {
  }

  /** What the parser takes for a record is exactly what prints one. */
  lemma RecordsArePrinted(s: seq<byte>)
    ensures IsFrame(RecordCut(), s) <==> exists r :: IsRecord(r) && Print(r) == s
  {
    hide RecordCut, Print;
    if IsFrame(RecordCut(), s) {
      ReadThenPrint(s);
    }
    if r :| IsRecord(r) && Print(r) == s {
      PrintThenRead(r);
    }
  }

  // ----- the directory -----

  type Decoder = seq<byte> -> string

  predicate DistinctNames(decode: Decoder, parts: seq<seq<byte>>)
    requires AllFrames(RecordCut(), parts)
  {
    forall i, j :: 0 <= i < j < |parts| ==> decode(NameOf(parts[i])) != decode(NameOf(parts[j]))
  }

  /** Every decoded name with the offset of its local header. */
  function EntriesOf(decode: Decoder, parts: seq<seq<byte>>): map<string, nat>
    requires AllFrames(RecordCut(), parts)
  {
    if parts == [] then map[]
    else
      var last := parts[|parts| - 1];
      EntriesOf(decode, parts[..|parts| - 1])[decode(NameOf(last)) := OffsetOf(last)]
  }

  ghost predicate IsDirectory(decode: Decoder, directory: seq<byte>, count: nat, parts: seq<seq<byte>>)
  {
    IsSplit(RecordCut(), directory, parts) && |parts| == count && DistinctNames(decode, parts)
  }

  lemma {:induction false} EntryKeys(decode: Decoder, parts: seq<seq<byte>>)
    requires AllFrames(RecordCut(), parts)
    ensures forall name :: name in EntriesOf(decode, parts) <==> exists i :: 0 <= i < |parts| && decode(NameOf(parts[i])) == name
    decreases |parts|
  {
    hide RecordCut, NameOf, OffsetOf;
    if parts != [] {
      var n := |parts| - 1;
      EntryKeys(decode, parts[..n]);
      forall name
        ensures name in EntriesOf(decode, parts) <==> exists i :: 0 <= i < |parts| && decode(NameOf(parts[i])) == name
      {
        if name in EntriesOf(decode, parts[..n]) {
          var i :| 0 <= i < n && decode(NameOf(parts[..n][i])) == name;
          assert decode(NameOf(parts[i])) == name;
        }
        if i :| 0 <= i < |parts| && decode(NameOf(parts[i])) == name && i < n {
          assert decode(NameOf(parts[..n][i])) == name;
        }
        assert decode(NameOf(parts[n])) in EntriesOf(decode, parts);
      }
    }
  }

  /** `parseCentralDirectory`. */
  method ParseCentralDirectory(decode: Decoder, directory: seq<byte>, expectedEntries: nat) returns (entries: Option<map<string, nat>>)
    ensures entries.Some? <==> exists parts :: IsDirectory(decode, directory, expectedEntries, parts)
    ensures forall parts :: IsDirectory(decode, directory, expectedEntries, parts) ==> entries == Some(EntriesOf(decode, parts))
  {
    hide RecordCut, Local, NameOf, OffsetOf, Walking, EntriesOf;
    var found: map<string, nat> := map[];
    var offset := 0;
    ghost var walked: seq<seq<byte>> := [];
    WalkStarts(RecordCut(), directory);
    RecordIsLocal();
    NoEntries(decode);
    for index := 0 to expectedEntries
      invariant 0 <= offset <= |directory| && |walked| == index
      invariant Walking(RecordCut(), directory, offset, walked) && AllFrames(RecordCut(), walked)
      invariant DistinctNames(decode, walked) && found == EntriesOf(decode, walked)
    {
      if offset == |directory| {
        TooFew(decode, directory, offset, walked, expectedEntries);
        return None;
      }
      var length := RecordCut()(directory[offset..]);
      if length == None {
        NotARecord(decode, directory, offset, walked, expectedEntries);
        return None;
      }
      ghost var part := WalkGoesOn(RecordCut(), directory, offset, walked);
      var record := directory[offset..offset + length.value];
      WalkedFrames(RecordCut(), directory, offset + length.value, walked + [part]);
      assert IsFrame(RecordCut(), (walked + [part])[|walked|]);
      var name := decode(NameOf(record));
      EntryKeys(decode, walked);
      if name in found {
        Duplicate(decode, directory, offset + length.value, walked, part, expectedEntries);
        return None;
      }
      OneMoreEntry(decode, walked, part);
      found := found[name := OffsetOf(record)];
      walked := walked + [part];
      offset := offset + length.value;
    }
    AllRead(decode, directory, offset, walked, expectedEntries);
    return if offset == |directory| then Some(found) else None;
  }

  lemma NoEntries(decode: Decoder)
    ensures EntriesOf(decode, []) == map[]
  {
  }

  lemma WalkedFrames(cut: Cut, region: seq<byte>, offset: nat, walked: seq<seq<byte>>)
    requires Walking(cut, region, offset, walked)
    ensures AllFrames(cut, walked) && Forced(cut, region, walked)
  {
  }

  lemma OneMoreEntry(decode: Decoder, walked: seq<seq<byte>>, part: seq<byte>)
    requires AllFrames(RecordCut(), walked) && IsFrame(RecordCut(), part)
    requires DistinctNames(decode, walked) && decode(NameOf(part)) !in EntriesOf(decode, walked)
    ensures AllFrames(RecordCut(), walked + [part]) && DistinctNames(decode, walked + [part])
    ensures EntriesOf(decode, walked + [part]) == EntriesOf(decode, walked)[decode(NameOf(part)) := OffsetOf(part)]
  {
    hide RecordCut, NameOf, OffsetOf;
    EntryKeys(decode, walked);
    var all := walked + [part];
    assert all[..|walked|] == walked && all[|walked|] == part;
    assert AllFrames(RecordCut(), all);
    forall i | 0 <= i < |walked|
      ensures decode(NameOf(all[i])) != decode(NameOf(part))
    {
      assert decode(NameOf(walked[i])) in EntriesOf(decode, walked);
    }
  }

  lemma TooFew(decode: Decoder, directory: seq<byte>, offset: nat, walked: seq<seq<byte>>, count: nat)
    requires Walking(RecordCut(), directory, offset, walked) && offset == |directory| && |walked| < count
    ensures forall parts :: !IsDirectory(decode, directory, count, parts)
  {
    hide RecordCut, NameOf, OffsetOf;
    assert directory[..offset] == directory;
    forall parts | IsSplit(RecordCut(), directory, parts)
      ensures |parts| < count
    {
      WholeRegion(RecordCut(), walked, parts);
    }
  }

  lemma NotARecord(decode: Decoder, directory: seq<byte>, offset: nat, walked: seq<seq<byte>>, count: nat)
    requires Walking(RecordCut(), directory, offset, walked) && offset < |directory|
    requires RecordCut()(directory[offset..]) == None
    ensures forall parts :: !IsDirectory(decode, directory, count, parts)
  {
    hide RecordCut, NameOf, OffsetOf, Walking, Local, IsSplit;
    RecordIsLocal();
    forall parts | IsSplit(RecordCut(), directory, parts)
      ensures false
    {
      NextIsForced(RecordCut(), directory, offset, walked, parts);
    }
  }

  lemma Duplicate(decode: Decoder, directory: seq<byte>, offset: nat, walked: seq<seq<byte>>, part: seq<byte>, count: nat)
    requires Walking(RecordCut(), directory, offset, walked + [part])
    requires AllFrames(RecordCut(), walked) && IsFrame(RecordCut(), part)
    requires decode(NameOf(part)) in EntriesOf(decode, walked)
    ensures forall parts :: !IsDirectory(decode, directory, count, parts)
  {
    hide RecordCut, NameOf, OffsetOf, EntriesOf;
    EntryKeys(decode, walked);
    var i :| 0 <= i < |walked| && decode(NameOf(walked[i])) == decode(NameOf(part));
    forall parts | IsSplit(RecordCut(), directory, parts)
      ensures !DistinctNames(decode, parts)
    {
      assert walked + [part] <= parts;
      assert parts[i] == (walked + [part])[i] == walked[i] && parts[|walked|] == (walked + [part])[|walked|] == part;
    }
  }

  lemma AllRead(decode: Decoder, directory: seq<byte>, offset: nat, walked: seq<seq<byte>>, count: nat)
    requires Walking(RecordCut(), directory, offset, walked) && |walked| == count && AllFrames(RecordCut(), walked)
    requires DistinctNames(decode, walked)
    ensures offset == |directory| ==> IsDirectory(decode, directory, count, walked)
    ensures forall parts :: IsDirectory(decode, directory, count, parts) ==> parts == walked && offset == |directory|
  {
    hide RecordCut, NameOf, OffsetOf;
    assert offset == |directory| ==> directory[..offset] == directory;
    forall parts | IsDirectory(decode, directory, count, parts)
      ensures parts == walked && offset == |directory|
    {
      assert walked <= parts && |walked| == |parts|;
      assert parts == walked;
      assert Flatten(walked) == directory;
    }
  }

  function PrintAll(records: seq<Record>): seq<seq<byte>>
    requires forall r :: r in records ==> IsRecord(r)
  {
    if records == [] then []
    else
      var last := records[|records| - 1];
      assert IsRecord(last);
      PrintAll(records[..|records| - 1]) + [Print(last)]
  }

  function NamesAndOffsets(decode: Decoder, records: seq<Record>): map<string, nat>
  {
    if records == [] then map[]
    else
      var last := records[|records| - 1];
      NamesAndOffsets(decode, records[..|records| - 1])[decode(last.name) := last.localHeaderOffset]
  }

  lemma {:induction false} PrintedDirectory(decode: Decoder, records: seq<Record>)
    requires forall r :: r in records ==> IsRecord(r)
    requires forall i, j :: 0 <= i < j < |records| ==> decode(records[i].name) != decode(records[j].name)
    ensures var parts := PrintAll(records);
            && |parts| == |records| && AllFrames(RecordCut(), parts)
            && (forall i :: 0 <= i < |parts| ==> NameOf(parts[i]) == records[i].name)
            && EntriesOf(decode, parts) == NamesAndOffsets(decode, records)
    decreases |records|
  {
    hide RecordCut, NameOf, OffsetOf, Print, IsRecord, IsFrame;
    if records != [] {
      var n := |records| - 1;
      PrintedDirectory(decode, records[..n]);
      PrintThenRead(records[n]);
      var parts := PrintAll(records);
      assert parts[..n] == PrintAll(records[..n]);
    }
  }

  /** Printing records with distinct names and parsing the bytes gives back exactly their names and offsets. */
  lemma PrintThenParse(decode: Decoder, records: seq<Record>, parts: seq<seq<byte>>)
    requires forall r :: r in records ==> IsRecord(r)
    requires forall i, j :: 0 <= i < j < |records| ==> decode(records[i].name) != decode(records[j].name)
    ensures IsDirectory(decode, Flatten(PrintAll(records)), |records|, PrintAll(records))
    ensures IsDirectory(decode, Flatten(PrintAll(records)), |records|, parts)
            ==> EntriesOf(decode, parts) == NamesAndOffsets(decode, records)
  {
    hide RecordCut, NameOf, OffsetOf, PrintAll, EntriesOf, NamesAndOffsets, Local;
    PrintedDirectory(decode, records);
    RecordIsLocal();
    if IsDirectory(decode, Flatten(PrintAll(records)), |records|, parts) {
      SplitIsUnique(RecordCut(), parts, PrintAll(records));
    }
  }

  // ----- the end record -----

  /** An end record whose comment reaches exactly the end of the bytes. */
  predicate IsEnd(s: seq<byte>, o: nat)
  {
    o + END_BYTES <= |s| && U32LE(s, o) == END_SIGNATURE && o + END_BYTES + U16LE(s, o + 20) == |s|
  }

  datatype Eocd = Eocd(absoluteOffset: nat, centralDirectoryOffset: nat, centralDirectorySize: nat, totalEntries: nat)

  /** One disk and no ZIP64 markers. */
  predicate IsPlainEnd(s: seq<byte>, o: nat)
    requires o + END_BYTES <= |s|
  {
    && U16LE(s, o + 4) == 0 && U16LE(s, o + 6) == 0 && U16LE(s, o + 8) == U16LE(s, o + 10) != ZIP16_MAX
    && U32LE(s, o + 12) != ZIP32_MAX && U32LE(s, o + 16) != ZIP32_MAX
  }

  function EndAt(s: seq<byte>, o: nat, base: nat): Eocd
    requires o + END_BYTES <= |s|
  {
    Eocd(base + o, U32LE(s, o + 16), U32LE(s, o + 12), U16LE(s, o + 10))
  }

  ghost predicate IsLastEnd(s: seq<byte>, o: nat)
  {
    IsEnd(s, o) && forall p: nat :: o < p ==> !IsEnd(s, p)
  }

  /** `parseEndOfCentralDirectory`: the backward scan stops at the last end record. */
  method ParseEndOfCentralDirectory(tail: seq<byte>, base: nat) returns (eocd: Option<Eocd>)
    ensures forall o: nat :: IsLastEnd(tail, o) ==>
              eocd == if IsPlainEnd(tail, o) then Some(EndAt(tail, o, base)) else None
    ensures (forall o: nat :: !IsEnd(tail, o)) ==> eocd == None
  {
    hide U16LE, U32LE;
    var offset: int := |tail| - END_BYTES;
    while offset >= 0
      invariant offset <= |tail| - END_BYTES
      invariant forall o: nat :: offset < o ==> !IsEnd(tail, o)
    {
      if U32LE(tail, offset) == END_SIGNATURE && offset + END_BYTES + U16LE(tail, offset + 20) == |tail| {
        assert IsEnd(tail, offset);
        assert forall o: nat :: IsLastEnd(tail, o) ==> o == offset;
        return if IsPlainEnd(tail, offset) then Some(EndAt(tail, offset, base)) else None;
      }
      offset := offset - 1;
    }
    return None;
  }

  lemma Tail16(file: seq<byte>, from: nat, at: nat)
    requires from + at + 2 <= |file|
    ensures U16LE(file[from..], at) == U16LE(file, from + at)
  {
  }

  lemma Tail32(file: seq<byte>, from: nat, at: nat)
    requires from + at + 4 <= |file|
    ensures U32LE(file[from..], at) == U32LE(file, from + at)
  {
    hide U16LE;
    Tail16(file, from, at);
    Tail16(file, from, at + 2);
  }

  lemma SameEnd(file: seq<byte>, from: nat, o: nat)
    requires from + o + END_BYTES <= |file|
    ensures IsEnd(file[from..], o) <==> IsEnd(file, from + o)
    ensures IsPlainEnd(file[from..], o) <==> IsPlainEnd(file, from + o)
    ensures EndAt(file[from..], o, from) == EndAt(file, from + o, 0)
  {
    hide U16LE, U32LE;
    Tail32(file, from, o);
    Tail16(file, from, o + 4);
    Tail16(file, from, o + 6);
    Tail16(file, from, o + 8);
    Tail16(file, from, o + 10);
    Tail32(file, from, o + 12);
    Tail32(file, from, o + 16);
    Tail16(file, from, o + 20);
  }

  function SearchStart(file: seq<byte>): (from: nat)
    ensures from <= |file|
  {
    if |file| > MAX_SEARCH_BYTES then |file| - MAX_SEARCH_BYTES else 0
  }

  /** A comment has at most 65,535 bytes, so no end record of the file lies before the tail that is read. */
  lemma TailHidesNone(file: seq<byte>, o: nat)
    ensures IsEnd(file, o) <==> o >= SearchStart(file) && IsEnd(file[SearchStart(file)..], o - SearchStart(file))
  {
    hide U16LE, U32LE;
    var from := SearchStart(file);
    if o >= from && o + END_BYTES <= |file| {
      SameEnd(file, from, o - from);
    }
  }

  lemma LastInTail(file: seq<byte>, o: nat)
    requires IsLastEnd(file, o)
    ensures o >= SearchStart(file) && o + END_BYTES <= |file|
    ensures IsLastEnd(file[SearchStart(file)..], o - SearchStart(file))
  {
    hide U16LE, U32LE, IsEnd, SearchStart;
    var from := SearchStart(file);
    TailHidesNone(file, o);
    EndFits(file, o);
    forall p: nat | o - from < p
      ensures !IsEnd(file[from..], p)
    {
      TailHidesNone(file, p + from);
    }
  }

  lemma EndFits(file: seq<byte>, o: nat)
    requires IsEnd(file, o)
    ensures o + END_BYTES <= |file|
  {
  }

  /** The end record of a whole file, searched in its tail only. */
  method FindEndRecord(file: seq<byte>) returns (eocd: Option<Eocd>)
    ensures forall o: nat :: IsLastEnd(file, o) ==>
              eocd == if IsPlainEnd(file, o) then Some(EndAt(file, o, 0)) else None
    ensures (forall o: nat :: !IsEnd(file, o)) ==> eocd == None
  {
    hide U16LE, U32LE, IsEnd, IsPlainEnd, EndAt, IsLastEnd, SearchStart;
    var from := SearchStart(file);
    eocd := ParseEndOfCentralDirectory(file[from..], from);
    forall o: nat | IsLastEnd(file, o)
      ensures o + END_BYTES <= |file|
      ensures eocd == if IsPlainEnd(file, o) then Some(EndAt(file, o, 0)) else None
    {
      LastInTail(file, o);
      SameEnd(file, from, o - from);
    }
    if forall o: nat :: !IsEnd(file, o) {
      forall p: nat
        ensures !IsEnd(file[from..], p)
      {
        TailHidesNone(file, p + from);
      }
    }
  }

  // ----- the end record as APPNOTE 4.3.16 writes it -----

  /** One disk, so many entries, the directory's size and offset, and a comment. */
  function WriteEnd(entries: nat, size: nat, offset: nat, comment: seq<byte>): (s: seq<byte>)
    requires entries < 0x1_0000 && size < 0x1_0000_0000 && offset < 0x1_0000_0000 && |comment| < 0x1_0000
    ensures |s| == 22 + |comment|
  {
    ['P' as byte, 'K' as byte, 5, 6] + [0, 0, 0, 0] + LE16(entries) + LE16(entries) + LE32(size) + LE32(offset)
    + LE16(|comment|) + comment
  }

  lemma ReadsLE16(s: seq<byte>, at: nat, n: nat)
    requires at + 2 <= |s| && n < 0x1_0000 && s[at..at + 2] == LE16(n)
    ensures U16LE(s, at) == n
  {
    hide LE16, U16LE;
    Write16Read(n);
    Shift16(s, at, at + 2, at);
  }

  lemma ReadsLE32(s: seq<byte>, at: nat, n: nat)
    requires at + 4 <= |s| && n < 0x1_0000_0000 && s[at..at + 4] == LE32(n)
    ensures U32LE(s, at) == n
  {
    hide LE32, U32LE;
    Write32Read(n);
    Shift32(s, at, at + 4, at);
  }

  lemma Behind(before: seq<byte>, end: seq<byte>, i: nat, j: nat)
    requires i <= j <= |end|
    ensures (before + end)[|before| + i..|before| + j] == end[i..j]
  {
  }

  lemma EndParts(entries: nat, size: nat, offset: nat, comment: seq<byte>)
    requires entries < 0x1_0000 && size < 0x1_0000_0000 && offset < 0x1_0000_0000 && |comment| < 0x1_0000
    ensures var end := WriteEnd(entries, size, offset, comment);
            && end[0..4] == ['P' as byte, 'K' as byte, 5, 6] && end[4..6] == [0, 0] && end[6..8] == [0, 0]
            && end[8..10] == LE16(entries) && end[10..12] == LE16(entries)
            && end[12..16] == LE32(size) && end[16..20] == LE32(offset) && end[20..22] == LE16(|comment|)
  {
    hide LE16, LE32;
  }

  /** After any bytes, a written end record is found, and gives its values unless one of them means ZIP64. */
  lemma EndRoundTrip(before: seq<byte>, entries: nat, size: nat, offset: nat, comment: seq<byte>)
    requires entries < 0x1_0000 && size < 0x1_0000_0000 && offset < 0x1_0000_0000 && |comment| < 0x1_0000
    ensures var file := before + WriteEnd(entries, size, offset, comment);
            && IsEnd(file, |before|)
            && EndAt(file, |before|, 0) == Eocd(|before|, offset, size, entries)
            && (IsPlainEnd(file, |before|) <==> entries != 0xffff && size != 0xffff_ffff && offset != 0xffff_ffff)
  {
    hide LE16, LE32, U16LE, U32LE, WriteEnd;
    var end, k := WriteEnd(entries, size, offset, comment), |before|;
    var file := before + end;
    EndParts(entries, size, offset, comment);
    Zeros();
    SignatureBytes();
    Behind(before, end, 0, 4);
    Behind(before, end, 4, 6);
    Behind(before, end, 6, 8);
    Behind(before, end, 8, 10);
    Behind(before, end, 10, 12);
    Behind(before, end, 12, 16);
    Behind(before, end, 16, 20);
    Behind(before, end, 20, 22);
    ReadsLE32(file, k, END_SIGNATURE);
    ReadsLE16(file, k + 4, 0);
    ReadsLE16(file, k + 6, 0);
    ReadsLE16(file, k + 8, entries);
    ReadsLE16(file, k + 10, entries);
    ReadsLE32(file, k + 12, size);
    ReadsLE32(file, k + 16, offset);
    ReadsLE16(file, k + 20, |comment|);
  }

  lemma Zeros()
    ensures LE16(0) == [0, 0]
  {
  }

  lemma SignatureBytes()
    ensures LE32(END_SIGNATURE) == ['P' as byte, 'K' as byte, 5, 6]
  {
  }

  /** A plain end record is a written one without ZIP64 markers, and reaches the end of the bytes. */
  lemma EndsAreWritten(s: seq<byte>, o: nat)
    requires o <= |s|
    ensures IsEnd(s, o) && IsPlainEnd(s, o) <==> exists entries: nat, size: nat, offset: nat, comment: seq<byte> ::
              && entries < 0xffff && size < 0xffff_ffff && offset < 0xffff_ffff && |comment| < 0x1_0000
              && s[o..] == WriteEnd(entries, size, offset, comment)
  {
    hide LE16, LE32, U16LE, U32LE, WriteEnd, IsPlainEnd;
    if IsEnd(s, o) && IsPlainEnd(s, o) {
      EndIsWritten(s, o);
    }
    if entries: nat, size: nat, offset: nat, comment: seq<byte> :|
      && entries < 0xffff && size < 0xffff_ffff && offset < 0xffff_ffff && |comment| < 0x1_0000
      && s[o..] == WriteEnd(entries, size, offset, comment)
    {
      assert s == s[..o] + WriteEnd(entries, size, offset, comment);
      EndRoundTrip(s[..o], entries, size, offset, comment);
    }
  }

  lemma EndIsWritten(s: seq<byte>, o: nat)
    requires IsEnd(s, o) && IsPlainEnd(s, o)
    ensures s[o..] == WriteEnd(U16LE(s, o + 10), U32LE(s, o + 12), U32LE(s, o + 16), s[o + 22..])
    ensures U16LE(s, o + 10) < 0xffff && U32LE(s, o + 12) < 0xffff_ffff && U32LE(s, o + 16) < 0xffff_ffff
    ensures |s[o + 22..]| < 0x1_0000
  {
    hide LE16, LE32, U16LE, U32LE;
    SignatureBytes();
    Zeros();
    Rewrite32(s, o);
    Rewrite16(s, o + 4);
    Rewrite16(s, o + 6);
    Rewrite16(s, o + 8);
    Rewrite16(s, o + 10);
    Rewrite32(s, o + 12);
    Rewrite32(s, o + 16);
    Rewrite16(s, o + 20);
    assert s[o + 4..o + 8] == [0, 0, 0, 0] by { Adjoin(s, o + 4, o + 6, o + 8); }
    Adjoin(s, o, o + 4, o + 8);
    Adjoin(s, o, o + 8, o + 10);
    Adjoin(s, o, o + 10, o + 12);
    Adjoin(s, o, o + 12, o + 16);
    Adjoin(s, o, o + 16, o + 20);
    Adjoin(s, o, o + 20, o + 22);
    Adjoin(s, o, o + 22, |s|);
    assert s[o..|s|] == s[o..] && s[o + 22..|s|] == s[o + 22..];
  }
}
