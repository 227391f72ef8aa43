/**
 * `matchesAdifStructure`: the ADIF header of ISO/IEC 14496-3 with its program config elements, read
 * through the bit reader. Every header is written as a list of bit fields; the check accepts
 * exactly the files whose first bits spell one.
 */
module AdifHeaders {
  import opened Bytes
  import opened Wrappers
  import opened BitReaders

  const INSPECTION_BYTES: nat := 64 * 1024

  function AdifMagic(): (m: seq<byte>)
    ensures |m| == 4
  {
    [0x41, 0x44, 0x49, 0x46] // "ADIF"
  }

  // ----- bit fields -----

  datatype Field = Field(width: nat, value: nat)

  function Total(fields: seq<Field>): nat
  {
    if fields == [] then 0 else fields[0].width + Total(fields[1..])
  }

  /** The bits from `at` on start with these fields. */
  predicate Spells(bytes: seq<byte>, at: nat, fields: seq<Field>)
    decreases |fields|
  {
    if fields == [] then at <= 8 * |bytes|
    else
      && at + fields[0].width <= 8 * |bytes|
      && Number(bytes, at, fields[0].width) == fields[0].value
      && Spells(bytes, at + fields[0].width, fields[1..])
  }

  lemma {:induction false} SpellsAppend(bytes: seq<byte>, at: nat, a: seq<Field>, b: seq<Field>)
    ensures Total(a + b) == Total(a) + Total(b)
    ensures Spells(bytes, at, a + b) <==> Spells(bytes, at, a) && Spells(bytes, at + Total(a), b)
    decreases |a|
  {
    hide Number;
    if a == [] {
      SpellsFits(bytes, at, b);
      assert a + b == b;
    } else {
      var c := a + b;
      assert c[0] == a[0] && c[1..] == a[1..] + b;
      SpellsAppend(bytes, at + a[0].width, a[1..], b);
      assert Spells(bytes, at, c) <==>
             && at + a[0].width <= 8 * |bytes| && Number(bytes, at, a[0].width) == a[0].value
             && Spells(bytes, at + a[0].width, c[1..]);
    }
  }

  lemma {:induction false} SpellsFits(bytes: seq<byte>, at: nat, fields: seq<Field>)
    ensures Spells(bytes, at, fields) ==> at + Total(fields) <= 8 * |bytes|
    decreases |fields|
  {
    if fields != [] {
      SpellsFits(bytes, at + fields[0].width, fields[1..]);
    }
  }

  lemma SpellsOne(bytes: seq<byte>, at: nat, field: Field)
    ensures Total([field]) == field.width
    ensures Spells(bytes, at, [field])
       <==> at + field.width <= 8 * |bytes| && Number(bytes, at, field.width) == field.value
  {
    assert [field][1..] == [];
  }

  // ----- fields of one width -----

  function Many(width: nat, values: seq<nat>): seq<Field>
  {
    if values == [] then [] else [Field(width, values[0])] + Many(width, values[1..])
  }

  /** The numbers in `count` consecutive fields. */
  function Numbers(bytes: seq<byte>, at: nat, width: nat, count: nat): (values: seq<nat>)
    requires at + width * count <= 8 * |bytes|
    ensures |values| == count
    decreases count
  {
    if count == 0 then []
    else
      Spread(width, count);
      [Number(bytes, at, width)] + Numbers(bytes, at + width, width, count - 1)
  }

  lemma Spread(width: nat, count: nat)
    requires count > 0
    ensures width * count == width + width * (count - 1)
  {
  }

  lemma {:induction false} ManyExactly(bytes: seq<byte>, at: nat, width: nat, values: seq<nat>)
    ensures Total(Many(width, values)) == width * |values|
    ensures Spells(bytes, at, Many(width, values))
       <==> at + width * |values| <= 8 * |bytes| && Numbers(bytes, at, width, |values|) == values
    decreases |values|
  {
    hide Number;
    var fields := Many(width, values);
    if values != [] {
      Spread(width, |values|);
      assert fields[1..] == Many(width, values[1..]);
      ManyExactly(bytes, at + width, width, values[1..]);
      assert values == [values[0]] + values[1..];
    }
  }

  // ----- optional fields -----

  function OptionFields(width: nat, o: Option<nat>): seq<Field>
  {
    if o == None then [Field(1, 0)] else [Field(1, 1)] + [Field(width, o.value)]
  }

  /** A value read and the offset after it. */
  datatype Parsed<T> = Parsed(value: T, end: nat)

  function ParseOption(bytes: seq<byte>, at: nat, width: nat): Option<Parsed<Option<nat>>>
  {
    if at + 1 > 8 * |bytes| then None
    else if Number(bytes, at, 1) != 1 then Some(Parsed(None, at + 1))
    else if at + 1 + width > 8 * |bytes| then None
    else Some(Parsed(Some(Number(bytes, at + 1, width)), at + 1 + width))
  }

  lemma OptionExactly(bytes: seq<byte>, at: nat, width: nat, o: Option<nat>, end: nat)
    ensures ParseOption(bytes, at, width) == Some(Parsed(o, end))
       <==> Spells(bytes, at, OptionFields(width, o)) && end == at + Total(OptionFields(width, o))
  {
    hide Number, Spells, Total;
    if at + 1 <= 8 * |bytes| {
      OneBit(bytes, at);
    }
    SpellsOne(bytes, at, Field(1, 0));
    if o.Some? {
      SpellsOne(bytes, at, Field(1, 1));
      SpellsOne(bytes, at + 1, Field(width, o.value));
      SpellsAppend(bytes, at, [Field(1, 1)], [Field(width, o.value)]);
    }
  }

  lemma OneBit(bytes: seq<byte>, at: nat)
    requires at + 1 <= 8 * |bytes|
    ensures Number(bytes, at, 1) == 0 || Number(bytes, at, 1) == 1
  {
    NumberFits(bytes, at, 1);
    assert Pow2(1) == 2;
    hide Number;
  }

  // ----- the program config element -----

  /** The mono, stereo and matrix mixdowns. */
  datatype Mixdowns = Mixdowns(mono: Option<nat>, stereo: Option<nat>, matrix: Option<nat>)

  /** Front, side, back and coupling channels are five bits each, the others four. */
  datatype Channels = Channels(
    front: seq<nat>,
    side: seq<nat>,
    back: seq<nat>,
    lfe: seq<nat>,
    assoc: seq<nat>,
    coupling: seq<nat>)

  datatype Counts = Counts(
    tag: nat,
    objectType: nat,
    sampling: nat,
    front: nat,
    side: nat,
    back: nat,
    lfe: nat,
    assoc: nat,
    coupling: nat)

  datatype Element = Element(
    tag: nat,
    objectType: nat,
    sampling: nat,
    mixdowns: Mixdowns,
    channels: Channels,
    padding: nat,
    comment: seq<nat>)

  predicate IsElement(e: Element)
  {
    && e.sampling < 13
    && |e.channels.front| + |e.channels.side| + |e.channels.back| + |e.channels.lfe| > 0
  }

  function CountsOf(e: Element): Counts
  {
    Counts(
      e.tag, e.objectType, e.sampling,
      |e.channels.front|, |e.channels.side|, |e.channels.back|,
      |e.channels.lfe|, |e.channels.assoc|, |e.channels.coupling|)
  }

  function CountFields(c: Counts): seq<Field>
  {
    [Field(4, c.tag), Field(2, c.objectType), Field(4, c.sampling),
     Field(4, c.front), Field(4, c.side), Field(4, c.back),
     Field(2, c.lfe), Field(3, c.assoc), Field(4, c.coupling)]
  }

  function MixdownFields(m: Mixdowns): seq<Field>
  {
    OptionFields(4, m.mono) + (OptionFields(4, m.stereo) + OptionFields(3, m.matrix))
  }

  function ChannelFields(c: Channels): seq<Field>
  {
    Many(5, c.front) + (Many(5, c.side) + (Many(5, c.back)
      + (Many(4, c.lfe) + (Many(4, c.assoc) + Many(5, c.coupling)))))
  }

  /** Bits to the next byte boundary. */
  function Padding(at: nat): (bits: nat)
    ensures bits < 8 && (at + bits) % 8 == 0
  {
    (8 - at % 8) % 8
  }

  function TailFields(at: nat, padding: nat, comment: seq<nat>): seq<Field>
  {
    [Field(Padding(at), padding)] + ([Field(8, |comment|)] + Many(8, comment))
  }

  function FrontFields(e: Element): seq<Field>
  {
    CountFields(CountsOf(e)) + (MixdownFields(e.mixdowns) + ChannelFields(e.channels))
  }

  /** The element's fields when it starts at a bit offset, which decides the padding before its comment. */
  function ElementFields(e: Element, at: nat): seq<Field>
  {
    FrontFields(e) + TailFields(at + Total(FrontFields(e)), e.padding, e.comment)
  }

  function ReadCounts(bytes: seq<byte>, at: nat): Counts
    requires at + 31 <= 8 * |bytes|
  {
    Counts(
      Number(bytes, at, 4), Number(bytes, at + 4, 2), Number(bytes, at + 6, 4),
      Number(bytes, at + 10, 4), Number(bytes, at + 14, 4), Number(bytes, at + 18, 4),
      Number(bytes, at + 22, 2), Number(bytes, at + 24, 3), Number(bytes, at + 27, 4))
  }

  lemma CountsExactly(bytes: seq<byte>, at: nat, c: Counts)
    ensures Total(CountFields(c)) == 31
    ensures Spells(bytes, at, CountFields(c)) <==> at + 31 <= 8 * |bytes| && ReadCounts(bytes, at) == c
  {
    hide Number;
    var f := CountFields(c);
    assert Total(f[9..]) == 0 && Total(f[8..]) == 4 && Total(f[7..]) == 7 && Total(f[6..]) == 9;
    assert Total(f[5..]) == 13 && Total(f[4..]) == 17 && Total(f[3..]) == 21 && Total(f[2..]) == 25;
    assert Total(f[1..]) == 27 && f[0..] == f;
    SpellsFits(bytes, at, f);
    if at + 31 <= 8 * |bytes| {
      CountsFrom(bytes, at, c);
    }
  }

  lemma CountsFrom(bytes: seq<byte>, at: nat, c: Counts)
    requires at + 31 <= 8 * |bytes|
    ensures Spells(bytes, at, CountFields(c)) <==> ReadCounts(bytes, at) == c
  {
    hide Number;
    var f := CountFields(c);
    assert f[1..] == [f[1], f[2], f[3], f[4], f[5], f[6], f[7], f[8]];
    assert f[1..][1..] == f[2..] && f[2..][1..] == f[3..] && f[3..][1..] == f[4..] && f[4..][1..] == f[5..];
    assert f[5..][1..] == f[6..] && f[6..][1..] == f[7..] && f[7..][1..] == f[8..] && f[8..][1..] == f[9..];
    assert f[9..] == [];
    assert Spells(bytes, at + 27, f[8..]) <==> Number(bytes, at + 27, 4) == c.coupling;
    assert Spells(bytes, at + 24, f[7..]) <==> Number(bytes, at + 24, 3) == c.assoc && Spells(bytes, at + 27, f[8..]);
    assert Spells(bytes, at + 22, f[6..]) <==> Number(bytes, at + 22, 2) == c.lfe && Spells(bytes, at + 24, f[7..]);
    assert Spells(bytes, at + 18, f[5..]) <==> Number(bytes, at + 18, 4) == c.back && Spells(bytes, at + 22, f[6..]);
    assert Spells(bytes, at + 14, f[4..]) <==> Number(bytes, at + 14, 4) == c.side && Spells(bytes, at + 18, f[5..]);
    assert Spells(bytes, at + 10, f[3..]) <==> Number(bytes, at + 10, 4) == c.front && Spells(bytes, at + 14, f[4..]);
    assert Spells(bytes, at + 6, f[2..]) <==> Number(bytes, at + 6, 4) == c.sampling && Spells(bytes, at + 10, f[3..]);
    assert Spells(bytes, at + 4, f[1..]) <==> Number(bytes, at + 4, 2) == c.objectType && Spells(bytes, at + 6, f[2..]);
  }

  function ParseMixdowns(bytes: seq<byte>, at: nat): Option<Parsed<Mixdowns>>
  {
    var mono := ParseOption(bytes, at, 4);
    if mono == None then None
    else
      var stereo := ParseOption(bytes, mono.value.end, 4);
      if stereo == None then None
      else
        var matrix := ParseOption(bytes, stereo.value.end, 3);
        if matrix == None then None
        else Some(Parsed(Mixdowns(mono.value.value, stereo.value.value, matrix.value.value), matrix.value.end))
  }

  lemma MixdownsExactly(bytes: seq<byte>, at: nat, m: Mixdowns, end: nat)
    ensures ParseMixdowns(bytes, at) == Some(Parsed(m, end))
       <==> Spells(bytes, at, MixdownFields(m)) && end == at + Total(MixdownFields(m))
  {
    hide ParseOption, Spells, Total, OptionFields;
    var a, b, c := OptionFields(4, m.mono), OptionFields(4, m.stereo), OptionFields(3, m.matrix);
    var p1, p2 := at + Total(a), at + Total(a) + Total(b);
    SpellsAppend(bytes, at, a, b + c);
    SpellsAppend(bytes, p1, b, c);
    OptionExactly(bytes, at, 4, m.mono, p1);
    OptionExactly(bytes, p1, 4, m.stereo, p2);
    OptionExactly(bytes, p2, 3, m.matrix, end);
    var mono := ParseOption(bytes, at, 4);
    if mono.Some? {
      OptionExactly(bytes, at, 4, m.mono, mono.value.end);
      var stereo := ParseOption(bytes, mono.value.end, 4);
      if stereo.Some? {
        OptionExactly(bytes, mono.value.end, 4, m.stereo, stereo.value.end);
      }
    }
  }

  function ChannelBits(c: Counts): nat
  {
    5 * c.front + 5 * c.side + 5 * c.back + 4 * c.lfe + 4 * c.assoc + 5 * c.coupling
  }

  function ReadChannels(bytes: seq<byte>, at: nat, c: Counts): Channels
    requires at + ChannelBits(c) <= 8 * |bytes|
  {
    var side := at + 5 * c.front;
    var back := side + 5 * c.side;
    var lfe := back + 5 * c.back;
    var assoc := lfe + 4 * c.lfe;
    var coupling := assoc + 4 * c.assoc;
    Channels(
      Numbers(bytes, at, 5, c.front), Numbers(bytes, side, 5, c.side), Numbers(bytes, back, 5, c.back),
      Numbers(bytes, lfe, 4, c.lfe), Numbers(bytes, assoc, 4, c.assoc), Numbers(bytes, coupling, 5, c.coupling))
  }

  /** The channel lists have the announced lengths. */
  predicate Match(c: Counts, channels: Channels)
  {
    && |channels.front| == c.front && |channels.side| == c.side && |channels.back| == c.back
    && |channels.lfe| == c.lfe && |channels.assoc| == c.assoc && |channels.coupling| == c.coupling
  }

  lemma ChannelsExactly(bytes: seq<byte>, at: nat, c: Counts, channels: Channels)
    requires Match(c, channels)
    ensures Total(ChannelFields(channels)) == ChannelBits(c)
    ensures Spells(bytes, at, ChannelFields(channels))
       <==> at + ChannelBits(c) <= 8 * |bytes| && ReadChannels(bytes, at, c) == channels
  {
    hide Spells, Total, Many, Numbers;
    var a, b, d := Many(5, channels.front), Many(5, channels.side), Many(5, channels.back);
    var e, f, g := Many(4, channels.lfe), Many(4, channels.assoc), Many(5, channels.coupling);
    var p1 := at + 5 * c.front;
    var p2 := p1 + 5 * c.side;
    var p3 := p2 + 5 * c.back;
    var p4 := p3 + 4 * c.lfe;
    var p5 := p4 + 4 * c.assoc;
    ManyExactly(bytes, at, 5, channels.front);
    ManyExactly(bytes, p1, 5, channels.side);
    ManyExactly(bytes, p2, 5, channels.back);
    ManyExactly(bytes, p3, 4, channels.lfe);
    ManyExactly(bytes, p4, 4, channels.assoc);
    ManyExactly(bytes, p5, 5, channels.coupling);
    SpellsAppend(bytes, p4, f, g);
    SpellsAppend(bytes, p3, e, f + g);
    SpellsAppend(bytes, p2, d, e + (f + g));
    SpellsAppend(bytes, p1, b, d + (e + (f + g)));
    SpellsAppend(bytes, at, a, b + (d + (e + (f + g))));
  }

  datatype Tail = Tail(padding: nat, comment: seq<nat>)

  function ParseTail(bytes: seq<byte>, at: nat): Option<Parsed<Tail>>
  {
    var aligned := at + Padding(at);
    if aligned + 8 > 8 * |bytes| then None
    else
      var size := Number(bytes, aligned, 8);
      if aligned + 8 + 8 * size > 8 * |bytes| then None
      else
        Some(Parsed(
          Tail(Number(bytes, at, Padding(at)), Numbers(bytes, aligned + 8, 8, size)), aligned + 8 + 8 * size))
  }

  lemma TailExactly(bytes: seq<byte>, at: nat, t: Tail, end: nat)
    ensures ParseTail(bytes, at) == Some(Parsed(t, end))
       <==> var fields := TailFields(at, t.padding, t.comment);
            Spells(bytes, at, fields) && end == at + Total(fields)
  {
    hide Spells, Total, Many, Numbers, Number, Padding;
    var aligned := at + Padding(at);
    var a, b, c := [Field(Padding(at), t.padding)], [Field(8, |t.comment|)], Many(8, t.comment);
    SpellsOne(bytes, at, a[0]);
    SpellsOne(bytes, aligned, b[0]);
    ManyExactly(bytes, aligned + 8, 8, t.comment);
    SpellsAppend(bytes, aligned, b, c);
    SpellsAppend(bytes, at, a, b + c);
  }

  function ParseElement(bytes: seq<byte>, at: nat): Option<Parsed<Element>>
  {
    if at + 31 > 8 * |bytes| then None
    else
      var c := ReadCounts(bytes, at);
      if c.sampling >= 13 || c.front + c.side + c.back + c.lfe == 0 then None
      else
        var m := ParseMixdowns(bytes, at + 31);
        if m == None || m.value.end + ChannelBits(c) > 8 * |bytes| then None
        else
          var channels := ReadChannels(bytes, m.value.end, c);
          var t := ParseTail(bytes, m.value.end + ChannelBits(c));
          if t == None then None
          else
            Some(Parsed(
              Element(
                c.tag, c.objectType, c.sampling, m.value.value, channels,
                t.value.value.padding, t.value.value.comment),
              t.value.end))
  }

  lemma FrontSpelled(bytes: seq<byte>, at: nat, e: Element)
    ensures var mix, c := MixdownFields(e.mixdowns), CountsOf(e);
            && Total(FrontFields(e)) == 31 + Total(mix) + ChannelBits(c)
            && (Spells(bytes, at, FrontFields(e)) <==>
                  && at + 31 <= 8 * |bytes| && ReadCounts(bytes, at) == c
                  && Spells(bytes, at + 31, mix)
                  && at + 31 + Total(mix) + ChannelBits(c) <= 8 * |bytes|
                  && ReadChannels(bytes, at + 31 + Total(mix), c) == e.channels)
  {
    hide Spells, Total, MixdownFields, ChannelFields, CountFields, ReadCounts, ReadChannels, ChannelBits;
    var c := CountsOf(e);
    var mix := MixdownFields(e.mixdowns);
    CountsExactly(bytes, at, c);
    ChannelsExactly(bytes, at + 31 + Total(mix), c, e.channels);
    SpellsAppend(bytes, at + 31, mix, ChannelFields(e.channels));
    SpellsAppend(bytes, at, CountFields(c), mix + ChannelFields(e.channels));
  }

  lemma ReadChannelsMatch(bytes: seq<byte>, at: nat, c: Counts)
    requires at + ChannelBits(c) <= 8 * |bytes|
    ensures Match(c, ReadChannels(bytes, at, c))
  {
    hide Numbers;
  }

  /** Writing an element's fields and reading them back are inverse. */
  lemma ElementExactly(bytes: seq<byte>, at: nat, e: Element, end: nat)
    ensures ParseElement(bytes, at) == Some(Parsed(e, end))
       <==> IsElement(e) && Spells(bytes, at, ElementFields(e, at)) && end == at + Total(ElementFields(e, at))
  {
    hide Spells, Total, MixdownFields, FrontFields, TailFields, ReadCounts, ReadChannels, ChannelBits;
    hide ParseMixdowns, ParseTail;
    var mix, c := MixdownFields(e.mixdowns), CountsOf(e);
    var middle := at + 31 + Total(mix);
    var tail := Tail(e.padding, e.comment);
    FrontSpelled(bytes, at, e);
    SpellsAppend(bytes, at, FrontFields(e), TailFields(at + Total(FrontFields(e)), e.padding, e.comment));
    MixdownsExactly(bytes, at + 31, e.mixdowns, middle);
    TailExactly(bytes, middle + ChannelBits(c), tail, end);
    if ParseElement(bytes, at) == Some(Parsed(e, end)) {
      var m := ParseMixdowns(bytes, at + 31);
      MixdownsExactly(bytes, at + 31, e.mixdowns, m.value.end);
      ReadChannelsMatch(bytes, m.value.end, ReadCounts(bytes, at));
    }
  }

  // ----- the header -----

  /** A program config element, after its buffer fullness in a stream of constant rate. */
  datatype Program = Program(fullness: Option<nat>, element: Element)

  datatype Header = Header(
    copyright: Option<seq<nat>>,
    original: nat,
    home: nat,
    streamType: nat,
    bitrate: nat,
    programs: seq<Program>)

  predicate IsHeader(h: Header)
  {
    && (h.copyright.Some? ==> |h.copyright.value| == 9)
    && 1 <= |h.programs|
    && forall p :: p in h.programs ==> IsElement(p.element) && (p.fullness.Some? <==> h.streamType == 0)
  }

  function FullnessFields(fullness: Option<nat>): seq<Field>
  {
    if fullness == None then [] else [Field(20, fullness.value)]
  }

  function ProgramFields(p: Program, at: nat): seq<Field>
  {
    var fullness := FullnessFields(p.fullness);
    fullness + ElementFields(p.element, at + Total(fullness))
  }

  function ProgramsFields(programs: seq<Program>, at: nat): seq<Field>
    decreases |programs|
  {
    if programs == [] then []
    else
      var first := ProgramFields(programs[0], at);
      first + ProgramsFields(programs[1..], at + Total(first))
  }

  function CopyrightFields(copyright: Option<seq<nat>>): seq<Field>
  {
    if copyright == None then [Field(1, 0)] else [Field(1, 1)] + Many(8, copyright.value)
  }

  function FixedFields(original: nat, home: nat, streamType: nat, bitrate: nat, last: nat): seq<Field>
  {
    [Field(1, original), Field(1, home), Field(1, streamType), Field(23, bitrate), Field(4, last)]
  }

  /** Everything after the magic, which ends at bit 32. */
  function HeaderFields(h: Header): seq<Field>
    requires |h.programs| >= 1
  {
    var copyright := CopyrightFields(h.copyright);
    copyright
    + (FixedFields(h.original, h.home, h.streamType, h.bitrate, |h.programs| - 1)
       + ProgramsFields(h.programs, 32 + Total(copyright) + 30))
  }

  function ParseProgram(bytes: seq<byte>, at: nat, constantRate: bool): Option<Parsed<Program>>
  {
    if constantRate && at + 20 > 8 * |bytes| then None
    else
      var e := ParseElement(bytes, if constantRate then at + 20 else at);
      if e == None then None
      else Some(Parsed(Program(if constantRate then Some(Number(bytes, at, 20)) else None, e.value.value), e.value.end))
  }

  lemma ProgramExactly(bytes: seq<byte>, at: nat, constantRate: bool, p: Program, end: nat)
    ensures ParseProgram(bytes, at, constantRate) == Some(Parsed(p, end))
       <==> && IsElement(p.element) && (p.fullness.Some? <==> constantRate)
            && Spells(bytes, at, ProgramFields(p, at)) && end == at + Total(ProgramFields(p, at))
  {
    hide Spells, Total, ElementFields, ParseElement, IsElement, Number;
    var start := if constantRate then at + 20 else at;
    ElementExactly(bytes, start, p.element, end);
    if p.fullness.Some? <==> constantRate {
      var fullness := FullnessFields(p.fullness);
      if constantRate {
        SpellsOne(bytes, at, fullness[0]);
      } else {
        NoFields(bytes, at);
      }
      SpellsAppend(bytes, at, fullness, ElementFields(p.element, start));
      SpellsFits(bytes, start, ElementFields(p.element, start));
    }
  }

  lemma NoFields(bytes: seq<byte>, at: nat)
    ensures Total([]) == 0 && (Spells(bytes, at, []) <==> at <= 8 * |bytes|)
  {
  }

  function ParsePrograms(bytes: seq<byte>, at: nat, constantRate: bool, count: nat): Option<Parsed<seq<Program>>>
    decreases count
  {
    if count == 0 then Some(Parsed([], at))
    else
      var first := ParseProgram(bytes, at, constantRate);
      if first == None then None
      else
        var rest := ParsePrograms(bytes, first.value.end, constantRate, count - 1);
        if rest == None then None else Some(Parsed([first.value.value] + rest.value.value, rest.value.end))
  }

  predicate AllPrograms(programs: seq<Program>, constantRate: bool)
  {
    forall p :: p in programs ==> IsElement(p.element) && (p.fullness.Some? <==> constantRate)
  }

  lemma ProgramsSplit(programs: seq<Program>, constantRate: bool)
    requires programs != []
    ensures AllPrograms(programs, constantRate)
       <==> && IsElement(programs[0].element) && (programs[0].fullness.Some? <==> constantRate)
            && AllPrograms(programs[1..], constantRate)
  {
    hide IsElement;
    assert programs == [programs[0]] + programs[1..];
  }

  lemma {:induction false} ProgramsAreParsed(
      bytes: seq<byte>, at: nat, constantRate: bool, programs: seq<Program>)
    requires AllPrograms(programs, constantRate) && Spells(bytes, at, ProgramsFields(programs, at))
    ensures ParsePrograms(bytes, at, constantRate, |programs|)
         == Some(Parsed(programs, at + Total(ProgramsFields(programs, at))))
    decreases |programs|
  {
    hide Spells, Total, ProgramFields, ParseProgram, IsElement, AllPrograms;
    if programs == [] {
      NoFields(bytes, at);
    } else {
      var fields := ProgramFields(programs[0], at);
      var middle := at + Total(fields);
      ProgramsSplit(programs, constantRate);
      SpellsAppend(bytes, at, fields, ProgramsFields(programs[1..], middle));
      ProgramExactly(bytes, at, constantRate, programs[0], middle);
      ProgramsAreParsed(bytes, middle, constantRate, programs[1..]);
      assert programs == [programs[0]] + programs[1..];
    }
  }

  lemma {:induction false} ProgramsAreSpelled(
      bytes: seq<byte>, at: nat, constantRate: bool, count: nat, programs: seq<Program>, end: nat)
    requires at <= 8 * |bytes| && ParsePrograms(bytes, at, constantRate, count) == Some(Parsed(programs, end))
    ensures |programs| == count && AllPrograms(programs, constantRate)
    ensures Spells(bytes, at, ProgramsFields(programs, at)) && end == at + Total(ProgramsFields(programs, at))
    decreases count
  {
    hide Spells, Total, ProgramFields, ParseProgram, IsElement;
    if count == 0 {
      NoFields(bytes, at);
    } else {
      hide AllPrograms;
      var first := ParseProgram(bytes, at, constantRate).value;
      var rest := ParsePrograms(bytes, first.end, constantRate, count - 1).value;
      assert programs[0] == first.value && programs[1..] == rest.value;
      ProgramExactly(bytes, at, constantRate, programs[0], first.end);
      SpellsFits(bytes, at, ProgramFields(programs[0], at));
      ProgramsAreSpelled(bytes, first.end, constantRate, count - 1, programs[1..], end);
      SpellsAppend(bytes, at, ProgramFields(programs[0], at), ProgramsFields(programs[1..], first.end));
      ProgramsSplit(programs, constantRate);
    }
  }

  function ParseCopyright(bytes: seq<byte>): Option<Parsed<Option<seq<nat>>>>
  {
    if 33 > 8 * |bytes| then None
    else if Number(bytes, 32, 1) != 1 then Some(Parsed(None, 33))
    else if 33 + 72 > 8 * |bytes| then None
    else Some(Parsed(Some(Numbers(bytes, 33, 8, 9)), 105))
  }

  lemma CopyrightExactly(bytes: seq<byte>, copyright: Option<seq<nat>>, end: nat)
    ensures ParseCopyright(bytes) == Some(Parsed(copyright, end))
       <==> && (copyright.Some? ==> |copyright.value| == 9)
            && Spells(bytes, 32, CopyrightFields(copyright)) && end == 32 + Total(CopyrightFields(copyright))
  {
    hide Number, Numbers, Spells, Total, Many;
    if 33 <= 8 * |bytes| {
      OneBit(bytes, 32);
    }
    SpellsOne(bytes, 32, Field(1, 0));
    if copyright.Some? {
      SpellsOne(bytes, 32, Field(1, 1));
      ManyExactly(bytes, 33, 8, copyright.value);
      SpellsAppend(bytes, 32, [Field(1, 1)], Many(8, copyright.value));
    }
  }

  lemma FixedExactly(bytes: seq<byte>, at: nat, original: nat, home: nat, streamType: nat, bitrate: nat, last: nat)
    ensures var f := FixedFields(original, home, streamType, bitrate, last);
            && Total(f) == 30
            && (Spells(bytes, at, f) <==>
                  && at + 30 <= 8 * |bytes|
                  && Number(bytes, at, 1) == original && Number(bytes, at + 1, 1) == home
                  && Number(bytes, at + 2, 1) == streamType && Number(bytes, at + 3, 23) == bitrate
                  && Number(bytes, at + 26, 4) == last)
  {
    hide Number;
    var f := FixedFields(original, home, streamType, bitrate, last);
    assert f[1..] == [f[1], f[2], f[3], f[4]] && f[1..][1..] == f[2..] && f[2..][1..] == f[3..];
    assert f[3..][1..] == f[4..] && f[4..][1..] == [];
    assert Total(f[4..]) == 4 && Total(f[3..]) == 27 && Total(f[2..]) == 28 && Total(f[1..]) == 29;
    SpellsFits(bytes, at, f);
    if at + 30 <= 8 * |bytes| {
      assert Spells(bytes, at + 26, f[4..]) <==> Number(bytes, at + 26, 4) == last;
      assert Spells(bytes, at + 3, f[3..]) <==> Number(bytes, at + 3, 23) == bitrate && Spells(bytes, at + 26, f[4..]);
      assert Spells(bytes, at + 2, f[2..]) <==> Number(bytes, at + 2, 1) == streamType && Spells(bytes, at + 3, f[3..]);
      assert Spells(bytes, at + 1, f[1..]) <==> Number(bytes, at + 1, 1) == home && Spells(bytes, at + 2, f[2..]);
    }
  }

  function ParseHeader(bytes: seq<byte>): Option<Parsed<Header>>
  {
    var copyright := ParseCopyright(bytes);
    if copyright == None || copyright.value.end + 30 > 8 * |bytes| then None
    else
      var at := copyright.value.end;
      var streamType := Number(bytes, at + 2, 1);
      var programs := ParsePrograms(bytes, at + 30, streamType == 0, Number(bytes, at + 26, 4) + 1);
      if programs == None then None
      else
        Some(Parsed(
          Header(copyright.value.value, Number(bytes, at, 1), Number(bytes, at + 1, 1), streamType,
                 Number(bytes, at + 3, 23), programs.value.value),
          programs.value.end))
  }

  lemma HeaderSpelled(bytes: seq<byte>, h: Header)
    requires |h.programs| >= 1
    ensures var a := CopyrightFields(h.copyright);
            var at := 32 + Total(a);
            var rest := ProgramsFields(h.programs, at + 30);
            && Total(HeaderFields(h)) == Total(a) + 30 + Total(rest)
            && (Spells(bytes, 32, HeaderFields(h)) <==>
                  && Spells(bytes, 32, a) && at + 30 <= 8 * |bytes|
                  && Number(bytes, at, 1) == h.original && Number(bytes, at + 1, 1) == h.home
                  && Number(bytes, at + 2, 1) == h.streamType && Number(bytes, at + 3, 23) == h.bitrate
                  && Number(bytes, at + 26, 4) == |h.programs| - 1
                  && Spells(bytes, at + 30, rest))
  {
    hide Number, Spells, Total, CopyrightFields, ProgramsFields, FixedFields;
    var a := CopyrightFields(h.copyright);
    var at := 32 + Total(a);
    var f := FixedFields(h.original, h.home, h.streamType, h.bitrate, |h.programs| - 1);
    var rest := ProgramsFields(h.programs, at + 30);
    FixedExactly(bytes, at, h.original, h.home, h.streamType, h.bitrate, |h.programs| - 1);
    SpellsAppend(bytes, at, f, rest);
    SpellsAppend(bytes, 32, a, f + rest);
  }

  lemma SpelledIsParsed(bytes: seq<byte>, h: Header)
    requires IsHeader(h) && Spells(bytes, 32, HeaderFields(h))
    ensures ParseHeader(bytes) == Some(Parsed(h, 32 + Total(HeaderFields(h))))
  {
    hide Number, Spells, Total, CopyrightFields, ParseCopyright, ParsePrograms, ProgramsFields, HeaderFields, IsElement;
    HeaderSpelled(bytes, h);
    var at := 32 + Total(CopyrightFields(h.copyright));
    CopyrightExactly(bytes, h.copyright, at);
    ProgramsAreParsed(bytes, at + 30, h.streamType == 0, h.programs);
  }

  lemma ParsedIsSpelled(bytes: seq<byte>, h: Header, end: nat)
    requires ParseHeader(bytes) == Some(Parsed(h, end))
    ensures IsHeader(h) && Spells(bytes, 32, HeaderFields(h)) && end == 32 + Total(HeaderFields(h))
  {
    hide Number, Spells, Total, CopyrightFields, ParseCopyright, ParsePrograms, ProgramsFields, HeaderFields, IsElement;
    var at := ParseCopyright(bytes).value.end;
    CopyrightExactly(bytes, h.copyright, at);
    ProgramsAreSpelled(bytes, at + 30, h.streamType == 0, Number(bytes, at + 26, 4) + 1, h.programs, end);
    HeaderSpelled(bytes, h);
  }

  /** Writing a header's fields and reading them back are inverse. */
  lemma HeaderExactly(bytes: seq<byte>, h: Header, end: nat)
    ensures ParseHeader(bytes) == Some(Parsed(h, end))
       <==> IsHeader(h) && Spells(bytes, 32, HeaderFields(h)) && end == 32 + Total(HeaderFields(h))
  {
    hide ParseHeader, Spells, HeaderFields, IsElement;
    if ParseHeader(bytes) == Some(Parsed(h, end)) {
      ParsedIsSpelled(bytes, h, end);
    } else if IsHeader(h) && Spells(bytes, 32, HeaderFields(h)) {
      SpelledIsParsed(bytes, h);
    }
  }

  /** No bits spell two different headers. */
  lemma HeaderIsDetermined(bytes: seq<byte>, a: Header, b: Header)
    requires IsHeader(a) && Spells(bytes, 32, HeaderFields(a))
    requires IsHeader(b) && Spells(bytes, 32, HeaderFields(b))
    ensures a == b
  {
    hide ParseHeader, Spells, HeaderFields, IsElement;
    HeaderExactly(bytes, a, 32 + Total(HeaderFields(a)));
    HeaderExactly(bytes, b, 32 + Total(HeaderFields(b)));
  }

  // ----- the check -----

  /** A mixdown flag and, when it is set, its field. */
  method SkipMixdown(reader: BitReader, width: nat) returns (ok: bool)
    requires reader.Valid() && width <= 32
    modifies reader
    ensures reader.Valid()
    ensures var p := ParseOption(reader.bytes, old(reader.bitOffset), width);
            (ok <==> p.Some?) && (ok ==> reader.bitOffset == p.value.end)
  {
    hide Number;
    var present := reader.Read(1);
    if present == None {
      return false;
    }
    if present.value == 1 {
      var field := reader.Read(width);
      return field.Some?;
    }
    return true;
  }

  /** Channel elements: a pair flag and a tag each. */
  method SkipChannels(reader: BitReader, count: nat) returns (ok: bool)
    requires reader.Valid()
    modifies reader
    ensures reader.Valid()
    ensures ok <==> old(reader.bitOffset) + 5 * count <= 8 * |reader.bytes|
    ensures ok ==> reader.bitOffset == old(reader.bitOffset) + 5 * count
  {
    hide Number;
    for index := 0 to count
      invariant reader.Valid() && reader.bitOffset == old(reader.bitOffset) + 5 * index
    {
      var pair := reader.Read(1);
      if pair == None {
        return false;
      }
      var tag := reader.Read(4);
      if tag == None {
        return false;
      }
    }
    return true;
  }

  method SkipTags(reader: BitReader, count: nat) returns (ok: bool)
    requires reader.Valid()
    modifies reader
    ensures reader.Valid()
    ensures ok <==> old(reader.bitOffset) + 4 * count <= 8 * |reader.bytes|
    ensures ok ==> reader.bitOffset == old(reader.bitOffset) + 4 * count
  {
    hide Number;
    for index := 0 to count
      invariant reader.Valid() && reader.bitOffset == old(reader.bitOffset) + 4 * index
    {
      var tag := reader.Read(4);
      if tag == None {
        return false;
      }
    }
    return true;
  }

  /** The element's first fields, all read before any of them is judged. */
  method ReadElementCounts(reader: BitReader) returns (counts: Option<Counts>)
    requires reader.Valid()
    modifies reader
    ensures reader.Valid()
    ensures var at := old(reader.bitOffset);
            && (counts.Some? <==> at + 31 <= 8 * |reader.bytes|)
            && (counts.Some? ==> reader.bitOffset == at + 31 && counts.value == ReadCounts(reader.bytes, at))
  {
    hide Number;
    var tag := reader.Read(4);
    if tag == None {
      return None;
    }
    var objectType := reader.Read(2);
    if objectType == None {
      return None;
    }
    var sampling := reader.Read(4);
    var front := reader.Read(4);
    var side := reader.Read(4);
    var back := reader.Read(4);
    var lfe := reader.Read(2);
    var assoc := reader.Read(3);
    var coupling := reader.Read(4);
    if || sampling == None || front == None || side == None || back == None
       || lfe == None || assoc == None || coupling == None
    {
      return None;
    }
    return Some(Counts(
      tag.value, objectType.value, sampling.value, front.value, side.value, back.value,
      lfe.value, assoc.value, coupling.value));
  }

  method SkipMixdowns(reader: BitReader) returns (ok: bool)
    requires reader.Valid()
    modifies reader
    ensures reader.Valid()
    ensures var p := ParseMixdowns(reader.bytes, old(reader.bitOffset));
            (ok <==> p.Some?) && (ok ==> reader.bitOffset == p.value.end)
  {
    hide ParseOption;
    ok := SkipMixdown(reader, 4);
    if !ok {
      return;
    }
    ok := SkipMixdown(reader, 4);
    if !ok {
      return;
    }
    ok := SkipMixdown(reader, 3);
  }

  method SkipAllChannels(reader: BitReader, c: Counts) returns (ok: bool)
    requires reader.Valid()
    modifies reader
    ensures reader.Valid()
    ensures ok <==> old(reader.bitOffset) + ChannelBits(c) <= 8 * |reader.bytes|
    ensures ok ==> reader.bitOffset == old(reader.bitOffset) + ChannelBits(c)
  {
    for kind := 0 to 3
      invariant reader.Valid()
      invariant reader.bitOffset
             == old(reader.bitOffset) + 5 * [0, c.front, c.front + c.side, c.front + c.side + c.back][kind]
    {
      ok := SkipChannels(reader, [c.front, c.side, c.back][kind]);
      if !ok {
        return;
      }
    }
    ok := SkipTags(reader, c.lfe);
    if !ok {
      return;
    }
    ok := SkipTags(reader, c.assoc);
    if !ok {
      return;
    }
    ok := SkipChannels(reader, c.coupling);
  }

  method SkipComment(reader: BitReader) returns (ok: bool)
    requires reader.Valid()
    modifies reader
    ensures reader.Valid()
    ensures var p := ParseTail(reader.bytes, old(reader.bitOffset));
            (ok <==> p.Some?) && (ok ==> reader.bitOffset == p.value.end)
  {
    hide Number, Numbers;
    reader.AlignToByte();
    assert reader.bitOffset == old(reader.bitOffset) + Padding(old(reader.bitOffset));
    var commentBytes := reader.Read(8);
    if commentBytes == None {
      return false;
    }
    ok := reader.Skip(commentBytes.value * 8);
  }

  /** `parseProgramConfigElement`. */
  method ParseProgramConfigElement(reader: BitReader) returns (ok: bool)
    requires reader.Valid()
    modifies reader
    ensures reader.Valid()
    ensures var p := ParseElement(reader.bytes, old(reader.bitOffset));
            (ok <==> p.Some?) && (ok ==> reader.bitOffset == p.value.end)
  {
    hide ReadCounts, ParseMixdowns, ChannelBits, ReadChannels, ParseTail;
    var counts := ReadElementCounts(reader);
    if counts == None || counts.value.sampling >= 13 {
      return false;
    }
    var c := counts.value;
    if c.front + c.side + c.back + c.lfe == 0 {
      return false;
    }
    ok := SkipMixdowns(reader);
    if !ok {
      return;
    }
    ok := SkipAllChannels(reader, c);
    if !ok {
      return;
    }
    ok := SkipComment(reader);
  }

  /** With `done` elements read, parsing the rest gives the outcome of parsing all. */
  predicate ProgramsParsed(bytes: seq<byte>, at: nat, constantRate: bool, total: nat, done: nat, offset: nat)
    requires done <= total
  {
    var whole := ParsePrograms(bytes, at, constantRate, total);
    var rest := ParsePrograms(bytes, offset, constantRate, total - done);
    (whole.Some? <==> rest.Some?) && (whole.Some? ==> whole.value.end == rest.value.end)
  }

  method SkipCopyright(reader: BitReader) returns (ok: bool)
    requires reader.Valid() && reader.bitOffset == 32
    modifies reader
    ensures reader.Valid()
    ensures var p := ParseCopyright(reader.bytes); (ok <==> p.Some?) && (ok ==> reader.bitOffset == p.value.end)
  {
    hide Number, Numbers;
    var copyrightPresent := reader.Read(1);
    if copyrightPresent == None {
      return false;
    }
    if copyrightPresent.value == 1 {
      var id := reader.Read(72);
      return id.Some?;
    }
    return true;
  }

  method SkipPrograms(reader: BitReader, constantRate: bool, pceCount: nat) returns (ok: bool)
    requires reader.Valid()
    modifies reader
    ensures reader.Valid()
    ensures var p := ParsePrograms(reader.bytes, old(reader.bitOffset), constantRate, pceCount);
            (ok <==> p.Some?) && (ok ==> reader.bitOffset == p.value.end)
  {
    hide Number, ParseElement;
    for index := 0 to pceCount
      invariant reader.Valid()
      invariant ProgramsParsed(reader.bytes, old(reader.bitOffset), constantRate, pceCount, index, reader.bitOffset)
    {
      if constantRate {
        var fullness := reader.Read(20);
        if fullness == None {
          return false;
        }
      }
      ok := ParseProgramConfigElement(reader);
      if !ok {
        return;
      }
    }
    return true;
  }

  datatype Stream = Stream(constantRate: bool, pceCount: nat)

  /** The fixed fields, of which the stream type and the number of elements matter. */
  method ReadStream(reader: BitReader) returns (r: Option<Stream>)
    requires reader.Valid()
    modifies reader
    ensures reader.Valid()
    ensures var at := old(reader.bitOffset);
            && (r.Some? <==> at + 30 <= 8 * |reader.bytes|)
            && (r.Some? ==>
                  && reader.bitOffset == at + 30
                  && r.value == Stream(Number(reader.bytes, at + 2, 1) == 0, Number(reader.bytes, at + 26, 4) + 1))
  {
    hide Number;
    var original := reader.Read(1);
    if original == None {
      return None;
    }
    var home := reader.Read(1);
    if home == None {
      return None;
    }
    var bitstreamType := reader.Read(1);
    var bitrate := reader.Read(23);
    var numProgramConfigElements := reader.Read(4);
    if bitstreamType == None || bitrate == None || numProgramConfigElements == None {
      return None;
    }
    return Some(Stream(bitstreamType.value == 0, numProgramConfigElements.value + 1));
  }

  /** Everything after the magic, which is the first 32 bits. */
  method CheckHeader(prefix: seq<byte>, fileSize: nat) returns (ok: bool)
    requires |prefix| >= 4
    ensures ok <==> ParseHeader(prefix).Some? && (ParseHeader(prefix).value.end + 7) / 8 < fileSize
  {
    hide Number, ParseCopyright, ParsePrograms;
    var reader := new BitReader(prefix, 32);
    ok := SkipCopyright(reader);
    if !ok {
      return;
    }
    var stream := ReadStream(reader);
    if stream == None {
      return false;
    }
    ok := SkipPrograms(reader, stream.value.constantRate, stream.value.pceCount);
    if ok {
      var offset := reader.ByteOffset();
      ok := offset < fileSize;
    }
  }

  function Inspected(file: seq<byte>): seq<byte>
  {
    file[..if |file| < INSPECTION_BYTES then |file| else INSPECTION_BYTES]
  }

  /** The magic, then bits that spell a header which ends within the inspected bytes and before the file does. */
  ghost predicate IsAdifFile(file: seq<byte>)
  {
    AdifMagic() <= file && exists h ::
      && IsHeader(h)
      && Spells(Inspected(file), 32, HeaderFields(h))
      && (32 + Total(HeaderFields(h)) + 7) / 8 < |file|
  }

  method MatchesAdifStructure(file: seq<byte>) returns (ok: bool)
    ensures ok <==> IsAdifFile(file)
  {
    hide ParseHeader, IsHeader, Spells, HeaderFields, Total;
    var prefix := Inspected(file);
    if |prefix| < 4 || prefix[..4] != AdifMagic() {
      return false;
    }
    assert file[..4] == prefix[..4];
    ok := CheckHeader(prefix, |file|);
    var parsed := ParseHeader(prefix);
    if parsed.Some? {
      HeaderExactly(prefix, parsed.value.value, parsed.value.end);
    }
    if IsAdifFile(file) {
      FileIsParsed(file);
    }
  }

  lemma FileIsParsed(file: seq<byte>)
    requires IsAdifFile(file)
    ensures var p := ParseHeader(Inspected(file)); p.Some? && (p.value.end + 7) / 8 < |file|
  {
    hide ParseHeader, IsElement, Spells, HeaderFields, Total;
    var h :|
      && IsHeader(h)
      && Spells(Inspected(file), 32, HeaderFields(h))
      && (32 + Total(HeaderFields(h)) + 7) / 8 < |file|;
    HeaderExactly(Inspected(file), h, 32 + Total(HeaderFields(h)));
  }
}
