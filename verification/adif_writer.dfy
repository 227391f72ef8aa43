/**
 * ADIF headers written to bytes: what `matchesAdifStructure` accepts is exactly such a header
 * followed by some audio data.
 */
module AdifWriter {
  import opened Bytes
  import opened Wrappers
  import opened BitReaders
  import opened AdifHeaders

  // ----- fields as bits -----

  function BitValue(bit: bool): nat
  {
    if bit then 1 else 0
  }

  /** The lowest binary digits of a number, the highest of them first. */
  function Digits(value: nat, width: nat): (bits: seq<bool>)
    ensures |bits| == width
    decreases width
  {
    if width == 0 then [] else Digits(value / 2, width - 1) + [value % 2 == 1]
  }

  function FieldBits(fields: seq<Field>): seq<bool>
  {
    if fields == [] then [] else Digits(fields[0].value, fields[0].width) + FieldBits(fields[1..])
  }

  /** Every value can be written in its field. */
  ghost predicate Fit(fields: seq<Field>)
  {
    forall f :: f in fields ==> f.value < Pow2(f.width)
  }

  /** These bits stand at the offset. */
  ghost predicate Shows(bytes: seq<byte>, at: nat, bits: seq<bool>)
  {
    at + |bits| <= 8 * |bytes| && forall i :: 0 <= i < |bits| ==> Bit(bytes, at + i) == BitValue(bits[i])
  }

  lemma {:induction false} FieldBitsTotal(fields: seq<Field>)
    ensures |FieldBits(fields)| == Total(fields)
  {
    if fields != [] {
      FieldBitsTotal(fields[1..]);
    }
  }

  lemma ShowsSplit(bytes: seq<byte>, at: nat, a: seq<bool>, b: seq<bool>)
    ensures Shows(bytes, at, a + b) <==> Shows(bytes, at, a) && Shows(bytes, at + |a|, b)
  {
    hide Bit;
    if Shows(bytes, at, a + b) {
      assert forall i :: 0 <= i < |a| ==> (a + b)[i] == a[i];
      forall i | 0 <= i < |b|
        ensures Bit(bytes, at + |a| + i) == BitValue(b[i])
      {
        assert (a + b)[|a| + i] == b[i];
        assert at + (|a| + i) == at + |a| + i;
      }
    }
    if Shows(bytes, at, a) && Shows(bytes, at + |a|, b) {
      forall i | 0 <= i < |a + b|
        ensures Bit(bytes, at + i) == BitValue((a + b)[i])
      {
        if i >= |a| {
          assert at + i == at + |a| + (i - |a|);
        }
      }
    }
  }

  lemma ShowsOne(bytes: seq<byte>, at: nat, bit: bool)
    requires at < 8 * |bytes|
    ensures Shows(bytes, at, [bit]) <==> Bit(bytes, at) == BitValue(bit)
  {
    hide Bit;
    assert Shows(bytes, at, [bit]) ==> Bit(bytes, at + 0) == BitValue([bit][0]);
  }

  lemma Halves(value: nat, n: nat, bit: nat, width: nat)
    requires bit < 2 && width > 0
    ensures 2 * n + bit == value <==> n == value / 2 && bit == BitValue(value % 2 == 1)
    ensures value < Pow2(width) <==> value / 2 < Pow2(width - 1)
  {
  }

  /** Reading a number finds a value exactly where its digits stand. */
  lemma {:induction false} NumberShows(bytes: seq<byte>, at: nat, width: nat, value: nat)
    requires at + width <= 8 * |bytes|
    ensures Number(bytes, at, width) == value <==> value < Pow2(width) && Shows(bytes, at, Digits(value, width))
    decreases width
  {
    hide Bit, Shows, Pow2;
    if width == 0 {
      NothingShows(bytes, at);
    } else {
      var last := at + width - 1;
      NumberShows(bytes, at, width - 1, value / 2);
      ShowsSplit(bytes, at, Digits(value / 2, width - 1), [value % 2 == 1]);
      ShowsOne(bytes, last, value % 2 == 1);
      BitFits(bytes, last);
      Halves(value, Number(bytes, at, width - 1), Bit(bytes, last), width);
    }
  }

  lemma NothingShows(bytes: seq<byte>, at: nat)
    requires at <= 8 * |bytes|
    ensures Shows(bytes, at, []) && Pow2(0) == 1
  {
  }

  /** Fields are spelled exactly where their values fit and their bits stand. */
  lemma {:induction false} SpellsShows(bytes: seq<byte>, at: nat, fields: seq<Field>)
    ensures Spells(bytes, at, fields) <==> Fit(fields) && Shows(bytes, at, FieldBits(fields))
    decreases |fields|
  {
    hide Number, Digits, Pow2, Bit;
    if fields != [] {
      hide Shows;
      var f := fields[0];
      var a, b := Digits(f.value, f.width), FieldBits(fields[1..]);
      SpellsShows(bytes, at + f.width, fields[1..]);
      ShowsSplit(bytes, at, a, b);
      FitSplit(fields);
      ShowsFits(bytes, at, a);
      if at + f.width <= 8 * |bytes| {
        NumberShows(bytes, at, f.width, f.value);
      }
    }
  }

  lemma FitSplit(fields: seq<Field>)
    requires fields != []
    ensures Fit(fields) <==> fields[0].value < Pow2(fields[0].width) && Fit(fields[1..])
  {
    hide Pow2;
    assert fields == [fields[0]] + fields[1..];
  }

  lemma ShowsFits(bytes: seq<byte>, at: nat, bits: seq<bool>)
    ensures Shows(bytes, at, bits) ==> at + |bits| <= 8 * |bytes|
  {
  }

  // ----- bits as bytes -----

  /** The number that the bits write, the highest first. */
  function Value(bits: seq<bool>): (n: nat)
    ensures n < Pow2(|bits|)
    decreases |bits|
  {
    if bits == [] then 0 else 2 * Value(bits[..|bits| - 1]) + BitValue(bits[|bits| - 1])
  }

  lemma {:induction false} DigitsOfValue(bits: seq<bool>)
    ensures Digits(Value(bits), |bits|) == bits
    decreases |bits|
  {
    hide Pow2;
    if bits != [] {
      var init, last := bits[..|bits| - 1], bits[|bits| - 1];
      DigitsOfValue(init);
      Halves(Value(bits), Value(init), BitValue(last), |bits|);
      assert bits == init + [last];
    }
  }

  function ByteOf(bits: seq<bool>): byte
    requires |bits| == 8
  {
    Pow2Values();
    Value(bits)
  }

  function PackBits(bits: seq<bool>): (bytes: seq<byte>)
    requires |bits| % 8 == 0
    ensures 8 * |bytes| == |bits|
  {
    seq(|bits| / 8, i requires 0 <= i < |bits| / 8 => ByteOf(bits[8 * i..8 * i + 8]))
  }

  lemma AtLeast(d: nat, x: nat)
    requires x >= 1
    ensures d * x >= d
  {
  }

  lemma QuotientIs(n: nat, d: nat, q: nat, r: nat)
    requires n == d * q + r && r < d
    ensures n / d == q
  {
    var k, m := n / d, n % d;
    assert d * (k - q) == r - m;
    if k > q {
      AtLeast(d, k - q);
    } else if q > k {
      AtLeast(d, q - k);
    }
  }

  lemma HalfOfQuotient(n: nat, d: nat)
    requires d > 0
    ensures n / d / 2 == n / (2 * d)
  {
    var q := n / d;
    var h, b := q / 2, q % 2;
    var r := n - d * q;
    assert n == 2 * d * h + (d * b + r) by {
      assert d * q == d * (2 * h + b) == 2 * d * h + d * b;
    }
    assert d * b + r < 2 * d;
    QuotientIs(n, 2 * d, h, d * b + r);
  }

  lemma BinaryDigits(n: nat)
    requires n < 256
    ensures n == 2 * (2 * (2 * (2 * (2 * (2 * (2 * (n / 128 % 2) + n / 64 % 2) + n / 32 % 2) + n / 16 % 2)
                                    + n / 8 % 2) + n / 4 % 2) + n / 2 % 2) + n % 2
  {
    HalfOfQuotient(n, 2);
    HalfOfQuotient(n, 4);
    HalfOfQuotient(n, 8);
    HalfOfQuotient(n, 16);
    HalfOfQuotient(n, 32);
    HalfOfQuotient(n, 64);
    DigitsAdd(n / 2, n / 4, n / 8, n / 16, n / 32, n / 64, n / 128);
  }

  lemma DigitsAdd(a: nat, b: nat, c: nat, d: nat, e: nat, f: nat, g: nat)
    requires b == a / 2 && c == b / 2 && d == c / 2 && e == d / 2 && f == e / 2 && g == f / 2 && g < 2
    ensures a == 2 * (2 * (2 * (2 * (2 * (2 * (g % 2) + f % 2) + e % 2) + d % 2) + c % 2) + b % 2) + a % 2
  {
  }

  lemma BitOf(bytes: seq<byte>, j: nat, k: nat, power: nat)
    requires j < |bytes| && k < 8 && power == Pow2(7 - k)
    ensures Bit(bytes, 8 * j + k) == bytes[j] as int / power % 2
  {
    assert (8 * j + k) / 8 == j && (8 * j + k) % 8 == k;
  }

  /** Eight bits from a byte boundary are that byte. */
  lemma NumberOfByte(bytes: seq<byte>, j: nat)
    requires j < |bytes|
    ensures Number(bytes, 8 * j, 8) == bytes[j] as int
  {
    hide Pow2, Bit;
    var at := 8 * j;
    Pow2Values();
    BitOf(bytes, j, 0, 128);
    BitOf(bytes, j, 1, 64);
    BitOf(bytes, j, 2, 32);
    BitOf(bytes, j, 3, 16);
    BitOf(bytes, j, 4, 8);
    BitOf(bytes, j, 5, 4);
    BitOf(bytes, j, 6, 2);
    BitOf(bytes, j, 7, 1);
    BinaryDigits(bytes[j]);
    assert Number(bytes, at, 2) == 2 * (bytes[j] as int / 128 % 2) + bytes[j] as int / 64 % 2;
    assert Number(bytes, at, 4) == 2 * (2 * Number(bytes, at, 2) + Bit(bytes, at + 2)) + Bit(bytes, at + 3);
    assert Number(bytes, at, 6) == 2 * (2 * Number(bytes, at, 4) + Bit(bytes, at + 4)) + Bit(bytes, at + 5);
    assert Number(bytes, at, 8) == 2 * (2 * Number(bytes, at, 6) + Bit(bytes, at + 6)) + Bit(bytes, at + 7);
  }

  /** Eight bits stand at a byte boundary exactly where the byte they write is. */
  lemma ByteShows(bytes: seq<byte>, j: nat, bits: seq<bool>)
    requires j < |bytes| && |bits| == 8
    ensures Shows(bytes, 8 * j, bits) <==> bytes[j] == ByteOf(bits)
  {
    hide Pow2, Bit, Shows, Number;
    NumberOfByte(bytes, j);
    NumberShows(bytes, 8 * j, 8, Value(bits));
    DigitsOfValue(bits);
  }

  /** Bytes show exactly the bits they are packed from. */
  lemma PackExactly(bytes: seq<byte>, bits: seq<bool>)
    requires |bits| == 8 * |bytes|
    ensures Shows(bytes, 0, bits) <==> bytes == PackBits(bits)
  {
    hide ByteOf, Bit;
    if Shows(bytes, 0, bits) {
      forall j | 0 <= j < |bytes|
        ensures bytes[j] == PackBits(bits)[j]
      {
        PartShows(bytes, bits, j);
        ByteShows(bytes, j, bits[8 * j..8 * j + 8]);
      }
    }
    if bytes == PackBits(bits) {
      forall i | 0 <= i < |bits|
        ensures Bit(bytes, i) == BitValue(bits[i])
      {
        var part := bits[8 * (i / 8)..8 * (i / 8) + 8];
        ByteShows(bytes, i / 8, part);
        assert Bit(bytes, 8 * (i / 8) + i % 8) == BitValue(part[i % 8]);
      }
    }
  }

  lemma PartShows(bytes: seq<byte>, bits: seq<bool>, j: nat)
    requires |bits| == 8 * |bytes| && j < |bytes| && Shows(bytes, 0, bits)
    ensures Shows(bytes, 8 * j, bits[8 * j..8 * j + 8])
  {
    hide Bit, Shows;
    assert bits == bits[..8 * j] + (bits[8 * j..8 * j + 8] + bits[8 * j + 8..]);
    ShowsSplit(bytes, 0, bits[..8 * j], bits[8 * j..8 * j + 8] + bits[8 * j + 8..]);
    ShowsSplit(bytes, 8 * j, bits[8 * j..8 * j + 8], bits[8 * j + 8..]);
  }

  /** Bits in the middle of a byte string. */
  lemma ShowsInside(before: seq<byte>, bytes: seq<byte>, after: seq<byte>, bits: seq<bool>)
    requires |bits| <= 8 * |bytes|
    ensures Shows(before + bytes + after, 8 * |before|, bits) <==> Shows(bytes, 0, bits)
  {
    hide Pow2;
    var all := before + bytes + after;
    forall i | 0 <= i < |bits|
      ensures Bit(bytes, i) == Bit(all, 8 * |before| + i)
    {
      assert (8 * |before| + i) / 8 == |before| + i / 8 && (8 * |before| + i) % 8 == i % 8;
      assert all[|before| + i / 8] == bytes[i / 8];
    }
    hide Bit;
  }

  // ----- headers -----

  lemma ElementIsAligned(e: Element, at: nat)
    ensures (at + Total(ElementFields(e, at))) % 8 == 0
  {
    hide Total, FrontFields, Many;
    var front := FrontFields(e);
    var middle := at + Total(front);
    SpellsAppend([], at, front, TailFields(middle, e.padding, e.comment));
    SpellsAppend([], middle, [Field(Padding(middle), e.padding)], [Field(8, |e.comment|)] + Many(8, e.comment));
    SpellsAppend([], middle, [Field(8, |e.comment|)], Many(8, e.comment));
    SpellsOne([], middle, Field(Padding(middle), e.padding));
    SpellsOne([], middle, Field(8, |e.comment|));
    ManyExactly([], middle, 8, e.comment);
  }

  lemma ProgramIsAligned(p: Program, at: nat)
    ensures (at + Total(ProgramFields(p, at))) % 8 == 0
  {
    hide Total, ElementFields;
    var fullness := FullnessFields(p.fullness);
    SpellsAppend([], at, fullness, ElementFields(p.element, at + Total(fullness)));
    ElementIsAligned(p.element, at + Total(fullness));
  }

  lemma {:induction false} ProgramsAreAligned(programs: seq<Program>, at: nat)
    requires programs != []
    ensures (at + Total(ProgramsFields(programs, at))) % 8 == 0
    decreases |programs|
  {
    hide Total, ProgramFields;
    var first := ProgramFields(programs[0], at);
    ProgramIsAligned(programs[0], at);
    SpellsAppend([], at, first, ProgramsFields(programs[1..], at + Total(first)));
    if |programs| > 1 {
      ProgramsAreAligned(programs[1..], at + Total(first));
    } else {
      NoFields([], at);
    }
  }

  lemma HeaderTotal(h: Header)
    requires |h.programs| >= 1
    ensures var copyright := Total(CopyrightFields(h.copyright));
            Total(HeaderFields(h)) == copyright + 30 + Total(ProgramsFields(h.programs, 32 + copyright + 30))
  {
    hide Total, CopyrightFields, ProgramsFields;
    HeaderSpelled([], h);
  }

  /** Every header ends at a byte boundary. */
  lemma HeaderIsAligned(h: Header)
    requires |h.programs| >= 1
    ensures |FieldBits(HeaderFields(h))| % 8 == 0
  {
    hide Total, CopyrightFields, ProgramsFields, HeaderFields, FieldBits;
    HeaderTotal(h);
    ProgramsAreAligned(h.programs, 32 + Total(CopyrightFields(h.copyright)) + 30);
    FieldBitsTotal(HeaderFields(h));
  }

  /** A header whose values fit their fields. */
  ghost predicate Writable(h: Header)
  {
    IsHeader(h) && Fit(HeaderFields(h))
  }

  /** The magic and the fields. */
  function WriteHeader(h: Header): seq<byte>
    requires |h.programs| >= 1
  {
    HeaderIsAligned(h);
    AdifMagic() + PackBits(FieldBits(HeaderFields(h)))
  }

  // ----- no header is longer than what is inspected -----

  const ELEMENT_BITS: nat := 2448

  lemma FitAppend(a: seq<Field>, b: seq<Field>)
    ensures Fit(a + b) <==> Fit(a) && Fit(b)
  {
    hide Pow2;
    assert forall f :: f in a ==> f in a + b;
    assert forall f :: f in b ==> f in a + b;
  }

  lemma FitCounts(c: Counts)
    requires Fit(CountFields(c))
    ensures c.front < 16 && c.side < 16 && c.back < 16 && c.lfe < 4 && c.assoc < 8 && c.coupling < 16
  {
    hide Pow2;
    Pow2Values();
    var f := CountFields(c);
    assert f[3] in f && f[4] in f && f[5] in f && f[6] in f && f[7] in f && f[8] in f;
  }

  lemma FitComment(at: nat, padding: nat, comment: seq<nat>)
    requires Fit(TailFields(at, padding, comment))
    ensures |comment| < 256 && Total(TailFields(at, padding, comment)) < 8 + 8 + 8 * 256
  {
    hide Pow2, Total, Many;
    Pow2Values();
    var a, b, c := [Field(Padding(at), padding)], [Field(8, |comment|)], Many(8, comment);
    assert b[0] in a + (b + c);
    SpellsAppend([], at, a, b + c);
    SpellsAppend([], at, b, c);
    SpellsOne([], at, a[0]);
    SpellsOne([], at, b[0]);
    ManyExactly([], at, 8, comment);
  }

  lemma OptionIsShort(width: nat, o: Option<nat>)
    ensures Total(OptionFields(width, o)) <= 1 + width
  {
    hide Total;
    SpellsOne([], 0, Field(1, 0));
    SpellsOne([], 0, Field(1, 1));
    if o.Some? {
      SpellsOne([], 0, Field(width, o.value));
      SpellsAppend([], 0, [Field(1, 1)], [Field(width, o.value)]);
    }
  }

  lemma MixdownsAreShort(m: Mixdowns)
    ensures Total(MixdownFields(m)) <= 14
  {
    hide Total, OptionFields;
    var a, b, c := OptionFields(4, m.mono), OptionFields(4, m.stereo), OptionFields(3, m.matrix);
    SpellsAppend([], 0, a, b + c);
    SpellsAppend([], 0, b, c);
    OptionIsShort(4, m.mono);
    OptionIsShort(4, m.stereo);
    OptionIsShort(3, m.matrix);
  }

  lemma ElementIsShort(e: Element, at: nat)
    requires Fit(ElementFields(e, at))
    ensures Total(ElementFields(e, at)) <= ELEMENT_BITS
  {
    hide Total, MixdownFields, ChannelFields, CountFields, TailFields;
    var counts, mixdowns, channels := CountFields(CountsOf(e)), MixdownFields(e.mixdowns), ChannelFields(e.channels);
    var tail := TailFields(at + Total(FrontFields(e)), e.padding, e.comment);
    FitAppend(FrontFields(e), tail);
    FitAppend(counts, mixdowns + channels);
    FitCounts(CountsOf(e));
    FitComment(at + Total(FrontFields(e)), e.padding, e.comment);
    SpellsAppend([], at, FrontFields(e), tail);
    FrontSpelled([], at, e);
    MixdownsAreShort(e.mixdowns);
  }

  lemma ProgramIsShort(p: Program, at: nat)
    requires Fit(ProgramFields(p, at))
    ensures Total(ProgramFields(p, at)) <= 20 + ELEMENT_BITS
  {
    hide Total, ElementFields;
    var fullness := FullnessFields(p.fullness);
    if p.fullness.Some? {
      SpellsOne([], at, fullness[0]);
    } else {
      NoFields([], at);
    }
    FitAppend(fullness, ElementFields(p.element, at + Total(fullness)));
    SpellsAppend([], at, fullness, ElementFields(p.element, at + Total(fullness)));
    ElementIsShort(p.element, at + Total(fullness));
  }

  lemma {:induction false} ProgramsAreShort(programs: seq<Program>, at: nat)
    requires Fit(ProgramsFields(programs, at))
    ensures Total(ProgramsFields(programs, at)) <= |programs| * (20 + ELEMENT_BITS)
    decreases |programs|
  {
    hide Total, ProgramFields, Fit;
    if programs == [] {
      NoFields([], at);
    } else {
      var first := ProgramFields(programs[0], at);
      var rest := ProgramsFields(programs[1..], at + Total(first));
      FitAppend(first, rest);
      SpellsAppend([], at, first, rest);
      ProgramIsShort(programs[0], at);
      ProgramsAreShort(programs[1..], at + Total(first));
    }
  }

  lemma CopyrightIsShort(copyright: Option<seq<nat>>)
    requires copyright.Some? ==> |copyright.value| == 9
    ensures Total(CopyrightFields(copyright)) <= 73
  {
    hide Total, Many;
    SpellsOne([], 0, Field(1, 0));
    SpellsOne([], 0, Field(1, 1));
    if copyright.Some? {
      ManyExactly([], 0, 8, copyright.value);
      SpellsAppend([], 0, [Field(1, 1)], Many(8, copyright.value));
    }
  }

  /** At most sixteen elements: no header reaches the end of the inspected bytes. */
  lemma HeaderIsShort(h: Header)
    requires Writable(h)
    ensures 8 * |WriteHeader(h)| == 32 + Total(HeaderFields(h)) && |WriteHeader(h)| < INSPECTION_BYTES
  {
    hide Total, CopyrightFields, ProgramsFields, FieldBits, IsElement;
    var copyright := CopyrightFields(h.copyright);
    var fixed := FixedFields(h.original, h.home, h.streamType, h.bitrate, |h.programs| - 1);
    var programs := ProgramsFields(h.programs, 32 + Total(copyright) + 30);
    HeaderIsAligned(h);
    FieldBitsTotal(HeaderFields(h));
    HeaderTotal(h);
    FitAppend(copyright, fixed + programs);
    FitAppend(fixed, programs);
    assert fixed[4] in fixed;
    Pow2Values();
    CopyrightIsShort(h.copyright);
    hide Fit;
    ProgramsAreShort(h.programs, 32 + Total(copyright) + 30);
  }

  // ----- files -----

  lemma WrittenIsAccepted(h: Header, audio: seq<byte>)
    requires Writable(h) && audio != []
    ensures IsAdifFile(WriteHeader(h) + audio)
  {
    hide Spells, HeaderFields, Fit, Total, Shows, PackBits, FieldBits, IsElement;
    var bits, written := FieldBits(HeaderFields(h)), WriteHeader(h);
    HeaderIsAligned(h);
    HeaderIsShort(h);
    var seen := Inspected(written + audio);
    var after := seen[|written|..];
    assert seen == AdifMagic() + PackBits(bits) + after;
    PackExactly(PackBits(bits), bits);
    ShowsInside(AdifMagic(), PackBits(bits), after, bits);
    SpellsShows(seen, 32, HeaderFields(h));
  }

  lemma AcceptedIsWritten(file: seq<byte>) returns (h: Header, audio: seq<byte>)
    requires IsAdifFile(file)
    ensures Writable(h) && audio != [] && file == WriteHeader(h) + audio
  {
    hide Spells, HeaderFields, Fit, Total, Shows, PackBits, FieldBits, IsElement;
    h :| IsHeader(h) && Spells(Inspected(file), 32, HeaderFields(h)) && (32 + Total(HeaderFields(h)) + 7) / 8 < |file|;
    var bits, seen := FieldBits(HeaderFields(h)), Inspected(file);
    SpellsShows(seen, 32, HeaderFields(h));
    FieldBitsTotal(HeaderFields(h));
    HeaderIsAligned(h);
    ShowsFits(seen, 32, bits);
    var n := 4 + |bits| / 8;
    var packed := seen[4..n];
    assert seen == AdifMagic() + packed + seen[n..];
    ShowsInside(AdifMagic(), packed, seen[n..], bits);
    PackExactly(packed, bits);
    audio := file[n..];
    assert file == AdifMagic() + packed + audio;
  }

  /** The accepted ADIF files are exactly the written headers, each followed by some audio data. */
  lemma AdifFilesAreWritten(file: seq<byte>)
    ensures IsAdifFile(file) <==> exists h, audio :: Writable(h) && audio != [] && file == WriteHeader(h) + audio
  {
    hide IsAdifFile, Fit, IsElement, WriteHeader;
    if IsAdifFile(file) {
      var h, audio := AcceptedIsWritten(file);
    }
    if h, audio :| Writable(h) && audio != [] && file == WriteHeader(h) + audio {
      WrittenIsAccepted(h, audio);
    }
  }

  /** What is written reads back. */
  lemma HeaderRoundTrip(h: Header)
    requires Writable(h)
    ensures ParseHeader(WriteHeader(h)) == Some(Parsed(h, 8 * |WriteHeader(h)|))
  {
    hide ParseHeader, Spells, HeaderFields, Fit, Total, Shows, PackBits, FieldBits, IsElement;
    var bits, written := FieldBits(HeaderFields(h)), WriteHeader(h);
    HeaderIsAligned(h);
    HeaderIsShort(h);
    PackExactly(PackBits(bits), bits);
    ShowsInside(AdifMagic(), PackBits(bits), [], bits);
    assert AdifMagic() + PackBits(bits) + [] == written;
    SpellsShows(written, 32, HeaderFields(h));
    HeaderExactly(written, h, 8 * |written|);
  }
}
