/**
 * The shift registers behind the two 32-bit CRCs of the upload checks: the Ogg page checksum
 * (RFC 3533 section 6) and the reflected one of PNG chunks (RFC 2083 section 3.4).
 */
module CrcRegisters {

  function Xor(a: bv32, b: bv32): bv32
  {
    a ^ b
  }

  function Top(x: bv32): bv32
  {
    x & 0x8000_0000
  }

  function ShiftLeft(x: bv32): bv32
  {
    x << 1
  }

  function Bottom(x: bv32): bv32
  {
    x & 1
  }

  function ShiftRight(x: bv32): bv32
  {
    x >> 1
  }

  /** One clock of the Ogg register: multiply by x and reduce by the generator 0x04c11db7. */
  function OggBit(r: bv32): bv32
  {
    if r & 0x8000_0000 != 0 then (r << 1) ^ 0x04c1_1db7 else r << 1
  }

  /** One clock of the reflected register that PNG uses. */
  function PngBit(r: bv32): bv32
  {
    if r & 1 != 0 then 0xedb8_8320 ^ (r >> 1) else r >> 1
  }

  /** Both registers divide by x^32 + x^26 + x^23 + x^22 + x^16 + x^12 + x^11 + x^10 + x^8 + x^7 + x^5 + x^4 + x^2 + x + 1. */
  lemma Generator()
    ensures OggBit(1 << 31)
         == (1 << 26) | (1 << 23) | (1 << 22) | (1 << 16) | (1 << 12) | (1 << 11) | (1 << 10) | (1 << 8) | (1 << 7)
            | (1 << 5) | (1 << 4) | (1 << 2) | (1 << 1) | 1
    ensures PngBit(1) == Reverse(OggBit(1 << 31))
  {
  }

  function OggClock(r: bv32, n: nat): bv32
    decreases n
  {
    if n == 0 then r else OggClock(OggBit(r), n - 1)
  }

  function PngClock(r: bv32, n: nat): bv32
    decreases n
  {
    if n == 0 then r else PngClock(PngBit(r), n - 1)
  }

  /** Shift the top `n` bits of x into the register, one clock each, highest bit first. */
  function OggShiftIn(r: bv32, x: bv32, n: nat): bv32
    decreases n
  {
    if n == 0 then r else OggShiftIn(OggBit(Xor(r, Top(x))), ShiftLeft(x), n - 1)
  }

  /** Shift the low `n` bits of x into the register, one clock each, lowest bit first. */
  function PngShiftIn(r: bv32, x: bv32, n: nat): bv32
    decreases n
  {
    if n == 0 then r else PngShiftIn(PngBit(Xor(r, Bottom(x))), ShiftRight(x), n - 1)
  }

  /** The 32 bits in the opposite order. */
  function Reverse(x: bv32): bv32
  {
    var a := ((x & 0x5555_5555) << 1) | ((x >> 1) & 0x5555_5555);
    var b := ((a & 0x3333_3333) << 2) | ((a >> 2) & 0x3333_3333);
    var c := ((b & 0x0f0f_0f0f) << 4) | ((b >> 4) & 0x0f0f_0f0f);
    var d := ((c & 0x00ff_00ff) << 8) | ((c >> 8) & 0x00ff_00ff);
    (d << 16) | (d >> 16)
  }

  // ----- exclusive or -----

  lemma XorAssociates(x: bv32, y: bv32, z: bv32)
    ensures Xor(Xor(x, y), z) == Xor(x, Xor(y, z))
  {
  }

  lemma XorZero(x: bv32)
    ensures Xor(x, 0) == x && Xor(0, x) == x && Xor(x, x) == 0
  {
  }

  lemma XorCancels(x: bv32, y: bv32)
    requires Xor(x, y) == 0
    ensures x == y
  {
  }

  // ----- one clock is linear and loses nothing -----

  lemma ShiftLeftXor(x: bv32, y: bv32)
    ensures (x ^ y) << 1 == (x << 1) ^ (y << 1)
  {
  }

  lemma OggBitShifts(r: bv32)
    requires r & 0x8000_0000 == 0
    ensures OggBit(r) == r << 1
  {
  }

  lemma OggBitLinear00(x: bv32, y: bv32)
    requires x & 0x8000_0000 == 0 && y & 0x8000_0000 == 0
    ensures OggBit(x ^ y) == OggBit(x) ^ OggBit(y)
  {
    hide OggBit;
    OggBitShifts(x);
    OggBitShifts(y);
    assert (x ^ y) & 0x8000_0000 == 0;
    OggBitShifts(x ^ y);
    ShiftLeftXor(x, y);
  }

  lemma OggBitLinear01(x: bv32, y: bv32)
    requires x & 0x8000_0000 == 0 && y & 0x8000_0000 != 0
    ensures OggBit(x ^ y) == OggBit(x) ^ OggBit(y)
  {
  }

  lemma OggBitLinear10(x: bv32, y: bv32)
    requires x & 0x8000_0000 != 0 && y & 0x8000_0000 == 0
    ensures OggBit(x ^ y) == OggBit(x) ^ OggBit(y)
  {
  }

  lemma OggBitLinear11(x: bv32, y: bv32)
    requires x & 0x8000_0000 != 0 && y & 0x8000_0000 != 0
    ensures OggBit(x ^ y) == OggBit(x) ^ OggBit(y)
  {
  }

  lemma OggBitIsLinear(x: bv32, y: bv32)
    ensures OggBit(Xor(x, y)) == Xor(OggBit(x), OggBit(y))
  {
    hide OggBit;
    if x & 0x8000_0000 == 0 {
      if y & 0x8000_0000 == 0 {
        OggBitLinear00(x, y);
      } else {
        OggBitLinear01(x, y);
      }
    } else if y & 0x8000_0000 == 0 {
      OggBitLinear10(x, y);
    } else {
      OggBitLinear11(x, y);
    }
  }

  lemma OggBitOfZero(x: bv32)
    requires OggBit(x) == 0
    ensures x == 0
  {
  }

  lemma OggBitIsInjective(x: bv32, y: bv32)
    requires OggBit(x) == OggBit(y)
    ensures x == y
  {
    hide *;
    OggBitIsLinear(x, y);
    XorZero(OggBit(x));
    OggBitOfZero(Xor(x, y));
    XorCancels(x, y);
  }

  lemma {:induction false} OggClockIsLinear(x: bv32, y: bv32, n: nat)
    ensures OggClock(Xor(x, y), n) == Xor(OggClock(x, n), OggClock(y, n))
    decreases n
  {
    hide OggBit, Xor;
    if n > 0 {
      OggBitIsLinear(x, y);
      OggClockIsLinear(OggBit(x), OggBit(y), n - 1);
    }
  }

  lemma {:induction false} OggClockIsInjective(x: bv32, y: bv32, n: nat)
    requires OggClock(x, n) == OggClock(y, n)
    ensures x == y
    decreases n
  {
    hide OggBit, Xor;
    if n > 0 {
      OggClockIsInjective(OggBit(x), OggBit(y), n - 1);
      OggBitIsInjective(x, y);
    }
  }

  // ----- a byte at a time is eight bits at a time -----

  function ShiftLeftBy(x: bv32, n: nat): bv32
    decreases n
  {
    if n == 0 then x else ShiftLeftBy(ShiftLeft(x), n - 1)
  }

  lemma SplitTop(x: bv32)
    ensures x == Xor(Top(x), x & 0x7fff_ffff)
    ensures OggBit(x & 0x7fff_ffff) == ShiftLeft(x)
  {
  }

  lemma OneBit(r: bv32, x: bv32)
    ensures OggBit(Xor(r, x)) == Xor(OggBit(Xor(r, Top(x))), ShiftLeft(x))
  {
    hide *;
    SplitTop(x);
    XorAssociates(r, Top(x), x & 0x7fff_ffff);
    OggBitIsLinear(Xor(r, Top(x)), x & 0x7fff_ffff);
  }

  /** Adding a whole word first and then clocking is shifting its bits in one by one. */
  lemma {:induction false} ClockingShiftsIn(r: bv32, x: bv32, n: nat)
    ensures OggClock(Xor(r, x), n) == Xor(OggShiftIn(r, x, n), ShiftLeftBy(x, n))
    decreases n
  {
    hide OggBit, Xor, ShiftLeft, Top;
    if n > 0 {
      OneBit(r, x);
      ClockingShiftsIn(OggBit(Xor(r, Top(x))), ShiftLeft(x), n - 1);
    }
  }

  lemma ShiftedOut(b: bv32)
    requires b <= 0xff
    ensures ShiftLeftBy(OggWord(b), 8) == 0
  {
    hide ShiftLeftBy;
    ShiftLeftBy8(OggWord(b));
    assert ((((((((b << 24) << 1) << 1) << 1) << 1) << 1) << 1) << 1) << 1 == 0;
  }

  lemma ShiftLeftBy8(x: bv32)
    ensures ShiftLeftBy(x, 8) == (((((((x << 1) << 1) << 1) << 1) << 1) << 1) << 1) << 1
  {
    hide ShiftLeft;
    assert ShiftLeftBy(x, 8)
        == ShiftLeft(ShiftLeft(ShiftLeft(ShiftLeft(ShiftLeft(ShiftLeft(ShiftLeft(ShiftLeft(x))))))));
    ShiftLeft8(x);
  }

  lemma ShiftLeft8(x: bv32)
    ensures ShiftLeft(ShiftLeft(ShiftLeft(ShiftLeft(ShiftLeft(ShiftLeft(ShiftLeft(ShiftLeft(x))))))))
         == (((((((x << 1) << 1) << 1) << 1) << 1) << 1) << 1) << 1
  {
  }

  lemma OggByteIsEightBits(r: bv32, b: bv32)
    requires b <= 0xff
    ensures OggClock(Xor(r, OggWord(b)), 8) == OggShiftIn(r, OggWord(b), 8)
  {
    hide *;
    ClockingShiftsIn(r, OggWord(b), 8);
    ShiftedOut(b);
    XorZero(OggShiftIn(r, OggWord(b), 8));
  }

  predicate TopBitsAreZero(x: bv32, n: nat)
    decreases n
  {
    n > 0 ==> Top(x) == 0 && TopBitsAreZero(ShiftLeft(x), n - 1)
  }

  lemma {:induction false} ZeroTopBitsShift(x: bv32, n: nat)
    requires TopBitsAreZero(x, n)
    ensures OggClock(x, n) == ShiftLeftBy(x, n)
    decreases n
  {
    hide OggBit, ShiftLeft, Top;
    if n > 0 {
      ZeroTopShifts(x);
      ZeroTopBitsShift(ShiftLeft(x), n - 1);
    }
  }

  lemma ZeroTopShifts(x: bv32)
    requires Top(x) == 0
    ensures OggBit(x) == ShiftLeft(x)
  {
  }

  /** The 24 bits that the table index leaves. */
  function Low(r: bv32): bv32
  {
    r & 0x00ff_ffff
  }

  function ShiftByte(r: bv32): bv32
  {
    r << 8
  }

  /** The table index of the Ogg checksum: the register's top byte and the message byte. */
  function OggIndex(r: bv32, b: bv32): bv32
  {
    ((r >> 24) ^ b) & 0xff
  }

  /** The table index of the PNG checksum: the register's low byte and the message byte. */
  function PngIndex(r: bv32, b: bv32): bv32
  {
    (r ^ b) & 0xff
  }

  function OggWord(b: bv32): bv32
  {
    b << 24
  }

  /** Eight clocks of a register whose top byte is zero only shift. */
  lemma LowBytesShift(r: bv32)
    ensures OggClock(Low(r), 8) == ShiftByte(r)
  {
    hide OggClock, Low;
    LowTopBitsAreZero(r);
    ZeroTopBitsShift(Low(r), 8);
    ShiftLeftBy8(Low(r));
    LowShifted(r);
  }

  lemma LowTopBitsAreZero(r: bv32)
    ensures TopBitsAreZero(Low(r), 8)
  {
  }

  lemma LowShifted(r: bv32)
    ensures (((((((Low(r) << 1) << 1) << 1) << 1) << 1) << 1) << 1) << 1 == ShiftByte(r)
  {
  }

  lemma SplitWord(r: bv32, b: bv32)
    requires b <= 0xff
    ensures r ^ (b << 24) == ((((r >> 24) ^ b) & 0xff) << 24) ^ (r & 0x00ff_ffff)
  {
  }

  lemma XorMeans(x: bv32, y: bv32)
    ensures Xor(x, y) == x ^ y
  {
  }

  lemma IndexMeans(r: bv32, b: bv32)
    ensures OggWord(OggIndex(r, b)) == (((r >> 24) ^ b) & 0xff) << 24
    ensures OggWord(b) == b << 24
    ensures Low(r) == r & 0x00ff_ffff
  {
  }

  lemma SplitIndex(r: bv32, b: bv32)
    requires b <= 0xff
    ensures Xor(r, OggWord(b)) == Xor(OggWord(OggIndex(r, b)), Low(r))
  {
    hide *;
    IndexMeans(r, b);
    SplitWord(r, b);
    XorMeans(r, b << 24);
    XorMeans((((r >> 24) ^ b) & 0xff) << 24, r & 0x00ff_ffff);
  }

  /** The table step of the Ogg checksum: the table holds eight clocks of each top byte. */
  lemma OggTableStep(r: bv32, b: bv32)
    requires b <= 0xff
    ensures Xor(OggClock(OggWord(OggIndex(r, b)), 8), ShiftByte(r)) == OggShiftIn(r, OggWord(b), 8)
  {
    hide *;
    SplitIndex(r, b);
    OggClockIsLinear(OggWord(OggIndex(r, b)), Low(r), 8);
    LowBytesShift(r);
    OggByteIsEightBits(r, b);
  }

  // ----- the PNG register is the Ogg register read backwards -----

  lemma ReverseTwice(x: bv32)
    ensures Reverse(Reverse(x)) == x
  {
  }

  lemma ReverseShift(x: bv32)
    ensures Reverse(ShiftRight(x)) == ShiftLeft(Reverse(x))
  {
    hide *;
    ReverseShiftBits(x);
    ShiftMeans(x);
    ShiftMeans(Reverse(x));
  }

  lemma ReverseShiftBits(x: bv32)
    ensures Reverse(x >> 1) == Reverse(x) << 1
  {
  }

  lemma ShiftMeans(x: bv32)
    ensures ShiftRight(x) == x >> 1 && ShiftLeft(x) == x << 1
  {
  }

  lemma ReverseShiftByte(x: bv32)
    ensures Reverse(x >> 8) == ShiftByte(Reverse(x))
  {
  }

  lemma ReverseEnds(x: bv32)
    ensures Reverse(Bottom(x)) == Top(Reverse(x))
  {
  }

  lemma ReverseOdd(x: bv32)
    ensures (Bottom(x) != 0) == (Top(Reverse(x)) != 0)
  {
  }

  lemma ReverseXor(x: bv32, y: bv32)
    ensures Reverse(Xor(x, y)) == Xor(Reverse(x), Reverse(y))
  {
  }

  lemma ReverseIsInjective(x: bv32, y: bv32)
    requires Reverse(x) == Reverse(y)
    ensures x == y
  {
    hide *;
    ReverseTwice(x);
    ReverseTwice(y);
  }

  lemma ReversedGenerator()
    ensures Reverse(0xedb8_8320) == 0x04c1_1db7
  {
  }

  lemma XorCommutes(x: bv32, y: bv32)
    ensures Xor(x, y) == Xor(y, x)
  {
  }

  lemma PngBitCases(r: bv32)
    ensures PngBit(r) == if Bottom(r) != 0 then Xor(0xedb8_8320, ShiftRight(r)) else ShiftRight(r)
  {
  }

  lemma OggBitCases(r: bv32)
    ensures OggBit(r) == if Top(r) != 0 then Xor(ShiftLeft(r), 0x04c1_1db7) else ShiftLeft(r)
  {
    hide *;
    if Top(r) != 0 {
      OggBitOdd(r);
    } else {
      ZeroTopShifts(r);
    }
  }

  lemma OggBitOdd(r: bv32)
    requires Top(r) != 0
    ensures OggBit(r) == Xor(ShiftLeft(r), 0x04c1_1db7)
  {
    hide *;
    TopMeans(r);
    OggBitReduces(r);
    ShiftMeans(r);
    XorMeans(r << 1, 0x04c1_1db7);
  }

  lemma TopMeans(r: bv32)
    ensures Top(r) == r & 0x8000_0000
  {
  }

  lemma OggBitReduces(r: bv32)
    requires r & 0x8000_0000 != 0
    ensures OggBit(r) == (r << 1) ^ 0x04c1_1db7
  {
  }

  lemma PngBitIsReversed(r: bv32)
    ensures Reverse(PngBit(r)) == OggBit(Reverse(r))
  {
    hide *;
    PngBitCases(r);
    OggBitCases(Reverse(r));
    ReverseOdd(r);
    ReverseShift(r);
    ReverseXor(0xedb8_8320, ShiftRight(r));
    ReversedGenerator();
    XorCommutes(0x04c1_1db7, ShiftLeft(Reverse(r)));
  }

  lemma {:induction false} PngClockIsReversed(r: bv32, n: nat)
    ensures Reverse(PngClock(r, n)) == OggClock(Reverse(r), n)
    decreases n
  {
    hide PngBit, OggBit, Reverse;
    if n > 0 {
      PngBitIsReversed(r);
      PngClockIsReversed(PngBit(r), n - 1);
    }
  }

  lemma {:induction false} PngShiftInIsReversed(r: bv32, x: bv32, n: nat)
    ensures Reverse(PngShiftIn(r, x, n)) == OggShiftIn(Reverse(r), Reverse(x), n)
    decreases n
  {
    hide PngBit, OggBit, Reverse, Xor, Top, Bottom, ShiftLeft, ShiftRight;
    if n > 0 {
      ReverseEnds(x);
      ReverseShift(x);
      ReverseXor(r, Bottom(x));
      PngBitIsReversed(Xor(r, Bottom(x)));
      PngShiftInIsReversed(PngBit(Xor(r, Bottom(x))), ShiftRight(x), n - 1);
    }
  }

  lemma ReversedByte(b: bv32)
    requires b <= 0xff
    ensures Reverse(b) >> 24 <= 0xff && OggWord(Reverse(b) >> 24) == Reverse(b)
  {
  }

  lemma ReversedIndex(r: bv32, b: bv32)
    requires b <= 0xff
    ensures Reverse(PngIndex(r, b)) == OggWord(OggIndex(Reverse(r), Reverse(b) >> 24))
  {
  }

  /** The table step of the PNG checksum. */
  lemma PngTableStep(r: bv32, b: bv32)
    requires b <= 0xff
    ensures Xor(PngClock(PngIndex(r, b), 8), r >> 8) == PngShiftIn(r, b, 8)
  {
    hide *;
    var index := PngIndex(r, b);
    ReversedByte(b);
    ReversedIndex(r, b);
    OggTableStep(Reverse(r), Reverse(b) >> 24);
    PngClockIsReversed(index, 8);
    PngShiftInIsReversed(r, b, 8);
    ReverseShiftByte(r);
    ReverseXor(PngClock(index, 8), r >> 8);
    ReverseIsInjective(Xor(PngClock(index, 8), r >> 8), PngShiftIn(r, b, 8));
  }
}

/** Bytes as words of a register. */
module ByteWords {

  function Narrow(b: int): bv8
    requires 0 <= b < 256
  {
    b as bv8
  }

  function Widen(v: bv8): (w: bv32)
    ensures w <= 0xff
  {
    v as bv32
  }

  function Bits(b: int): (w: bv32)
    requires 0 <= b < 256
    ensures w <= 0xff
  {
    Widen(Narrow(b))
  }

  lemma {:induction false} WordOf(b: int) returns (v: bv8)
    requires 0 <= b < 256
    ensures v as int == b
  {
    if b == 0 {
      v := 0;
    } else {
      v := WordOf(b - 1);
      v := v + 1;
    }
  }

  lemma NarrowKeeps(b: int)
    requires 0 <= b < 256
    ensures (b as bv8) as int == b
  {
    var v := WordOf(b);
    WordKeeps(v);
  }

  lemma WordKeeps(v: bv8)
    ensures (v as int) as bv8 == v
  {
  }

  lemma WidenKeeps(x: bv8, y: bv8)
    requires x as bv32 == y as bv32
    ensures x == y
  {
  }

  lemma BitsAreDistinct(a: int, b: int)
    requires 0 <= a < 256 && 0 <= b < 256 && Bits(a) == Bits(b)
    ensures a == b
  {
    WidenKeeps(a as bv8, b as bv8);
    NarrowKeeps(a);
    NarrowKeeps(b);
  }

  lemma IndexKeeps(w: bv32)
    ensures (((w & 0xff) as int) as bv8) as bv32 == w & 0xff
  {
  }

  /** The low byte of a word, as a table index. */
  function Slot(w: bv32): (i: int)
    ensures 0 <= i < 256
  {
    (w & 0xff) as int
  }

  lemma BitsOfSlot(w: bv32)
    ensures Bits(Slot(w)) == w & 0xff
  {
    IndexKeeps(w);
  }

  function Number(w: bv32): int
  {
    w as int
  }

  lemma NumbersAreDistinct(v: bv32, w: bv32)
    requires Number(v) == Number(w)
    ensures v == w
  {
    NumberKeeps(v);
    NumberKeeps(w);
  }

  lemma NumberKeeps(w: bv32)
    ensures (w as int) as bv32 == w
  {
  }
}

/**
 * The two checksums over bytes, the tables that compute them, and the checks that use them:
 * `hasValidOggCrc` and `validatePngChunkCrc`.
 */
module Crc {
  import opened Bytes
  import opened Wrappers
  import opened CrcRegisters
  import opened ByteWords

  const OGG_FIXED_HEADER_BYTES: nat := 27
  const PNG_CRC_READ_BYTES: nat := 64 * 1024

  /** The Ogg register after a message, one message bit per clock. */
  function OggCrc(r: bv32, s: seq<byte>): bv32
    decreases s
  {
    if s == [] then r else OggCrc(OggShiftIn(r, OggWord(Bits(s[0])), 8), s[1..])
  }

  /** The PNG register after a message, one message bit per clock. */
  function PngCrc(r: bv32, s: seq<byte>): bv32
    decreases s
  {
    if s == [] then r else PngCrc(PngShiftIn(r, Bits(s[0]), 8), s[1..])
  }

  ghost predicate IsOggTable(table: seq<bv32>)
  {
    |table| == 256 && forall i: byte :: table[i] == OggClock(OggWord(Bits(i)), 8)
  }

  ghost predicate IsPngTable(table: seq<bv32>)
  {
    |table| == 256 && forall i: byte :: table[i] == PngClock(Bits(i), 8)
  }

  // ----- the tables -----

  /** `buildOggCrcTable`. */
  method BuildOggCrcTable() returns (table: seq<bv32>)
    ensures IsOggTable(table)
  {
    hide OggBit, OggWord, Bits;
    var entries := new bv32[256];
    for index := 0 to 256
      invariant forall i: byte :: i < index ==> entries[i] == OggClock(OggWord(Bits(i)), 8)
    {
      var value := OggWord(Bits(index));
      for bit := 0 to 8
        invariant OggClock(value, 8 - bit) == OggClock(OggWord(Bits(index)), 8)
        invariant forall i: byte :: i < index ==> entries[i] == OggClock(OggWord(Bits(i)), 8)
      {
        value := OggBit(value);
      }
      entries[index] := value;
    }
    table := entries[..];
  }

  /** `buildCrc32Table`. */
  method BuildCrc32Table() returns (table: seq<bv32>)
    ensures IsPngTable(table)
  {
    hide PngBit, Bits;
    var entries := new bv32[256];
    for index := 0 to 256
      invariant forall i: byte :: i < index ==> entries[i] == PngClock(Bits(i), 8)
    {
      var value := Bits(index);
      for bit := 0 to 8
        invariant PngClock(value, 8 - bit) == PngClock(Bits(index), 8)
        invariant forall i: byte :: i < index ==> entries[i] == PngClock(Bits(i), 8)
      {
        value := PngBit(value);
      }
      entries[index] := value;
    }
    table := entries[..];
  }

  // ----- the Ogg page checksum -----

  /** The page with its checksum field cleared (RFC 3533 section 6, field 7). */
  function WithoutChecksum(page: seq<byte>): (r: seq<byte>)
    requires |page| >= OGG_FIXED_HEADER_BYTES
    ensures |r| == |page|
  {
    page[22 := 0][23 := 0][24 := 0][25 := 0]
  }

  /** A page whose checksum field holds the bit-serial checksum of the rest. */
  ghost predicate ChecksumHolds(page: seq<byte>)
  {
    |page| >= OGG_FIXED_HEADER_BYTES && Number(OggCrc(0, WithoutChecksum(page))) == U32LE(page, 22)
  }

  lemma {:induction false} OggCrcAppend(r: bv32, a: seq<byte>, b: seq<byte>)
    ensures OggCrc(r, a + b) == OggCrc(OggCrc(r, a), b)
    decreases a
  {
    hide OggShiftIn, OggWord, Bits;
    if a == [] {
      assert a + b == b;
    } else {
      assert (a + b)[0] == a[0] && (a + b)[1..] == a[1..] + b;
      OggCrcAppend(OggShiftIn(r, OggWord(Bits(a[0])), 8), a[1..], b);
    }
  }

  lemma OggCrcSnoc(r: bv32, s: seq<byte>, b: byte)
    ensures OggCrc(r, s + [b]) == OggShiftIn(OggCrc(r, s), OggWord(Bits(b)), 8)
  {
    hide OggShiftIn, OggWord, Bits;
    OggCrcAppend(r, s, [b]);
    assert [b][1..] == [];
  }

  /** One byte through the table. */
  method OggTableUpdate(table: seq<bv32>, crc: bv32, b: byte) returns (next: bv32)
    requires IsOggTable(table)
    ensures next == OggShiftIn(crc, OggWord(Bits(b)), 8)
  {
    hide *;
    ghost var e := OggTableEntry(table, crc, b);
    var tableIndex := Slot((crc >> 24) ^ Bits(b));
    var entry := table[tableIndex];
    next := (crc << 8) ^ entry;
  }

  /** `hasValidOggCrc`: the table-driven checksum is the bit-serial one. */
  method HasValidOggCrc(table: seq<bv32>, page: seq<byte>) returns (ok: bool)
    requires IsOggTable(table)
    ensures ok <==> ChecksumHolds(page)
  {
    hide IsOggTable, OggShiftIn, OggWord, Bits, Number, U32LE;
    if |page| < OGG_FIXED_HEADER_BYTES {
      return false;
    }
    var expected := U32LE(page, 22);
    ghost var message := WithoutChecksum(page);
    var crc: bv32 := 0;
    for index := 0 to |page|
      invariant OggCrc(crc, message[index..]) == OggCrc(0, message)
    {
      var b := if 22 <= index <= 25 then 0 else page[index];
      assert message[index..][0] == b && message[index..][1..] == message[index + 1..];
      crc := OggTableUpdate(table, crc, b);
    }
    return Number(crc) == expected;
  }

  /** What the table holds at the computed index, and what the step makes of it. */
  lemma OggTableEntry(table: seq<bv32>, r: bv32, b: byte) returns (entry: bv32)
    requires IsOggTable(table)
    ensures |table| == 256 && entry == table[Slot((r >> 24) ^ Bits(b))]
    ensures (r << 8) ^ entry == OggShiftIn(r, OggWord(Bits(b)), 8)
  {
    hide *;
    OggEntry(table, r, Bits(b));
    entry := table[Slot((r >> 24) ^ Bits(b))];
    AddOggEntry(r, Bits(b), entry);
  }

  lemma AddOggEntry(r: bv32, b: bv32, entry: bv32)
    requires b <= 0xff && entry == OggClock(OggWord(OggIndex(r, b)), 8)
    ensures (r << 8) ^ entry == OggShiftIn(r, OggWord(b), 8)
  {
    hide *;
    OggTableStep(r, b);
    AddTableEntry(r, entry);
  }

  lemma OggEntry(table: seq<bv32>, r: bv32, b: bv32)
    requires IsOggTable(table)
    ensures |table| == 256 && table[Slot((r >> 24) ^ b)] == OggClock(OggWord(OggIndex(r, b)), 8)
  {
    hide OggClock, OggWord, Bits, Slot, OggIndex;
    BitsOfSlot((r >> 24) ^ b);
    OggIndexMeans(r, b);
  }

  lemma OggIndexMeans(r: bv32, b: bv32)
    ensures OggIndex(r, b) == ((r >> 24) ^ b) & 0xff
  {
  }

  lemma AddTableEntry(r: bv32, entry: bv32)
    ensures (r << 8) ^ entry == Xor(entry, ShiftByte(r))
  {
  }

  /** The step is injective in the register and in the byte. */
  lemma StepIsInjective(r: bv32, a: byte, q: bv32, b: byte)
    requires OggShiftIn(r, OggWord(Bits(a)), 8) == OggShiftIn(q, OggWord(Bits(b)), 8)
    ensures a == b ==> r == q
    ensures r == q ==> a == b
  {
    hide *;
    OggByteIsEightBits(r, Bits(a));
    OggByteIsEightBits(q, Bits(b));
    OggClockIsInjective(Xor(r, OggWord(Bits(a))), Xor(q, OggWord(Bits(b))), 8);
    if a == b {
      XorIsInjective(r, q, OggWord(Bits(a)));
    } else if r == q {
      XorCommutes(r, OggWord(Bits(a)));
      XorCommutes(r, OggWord(Bits(b)));
      XorIsInjective(OggWord(Bits(a)), OggWord(Bits(b)), r);
      WordsAreDistinct(Bits(a), Bits(b));
      BitsAreDistinct(a, b);
    }
  }

  lemma XorIsInjective(x: bv32, y: bv32, z: bv32)
    requires Xor(x, z) == Xor(y, z)
    ensures x == y
  {
  }

  lemma WordsAreDistinct(a: bv32, b: bv32)
    requires a <= 0xff && b <= 0xff && OggWord(a) == OggWord(b)
    ensures a == b
  {
  }

  lemma {:induction false} RegistersStayApart(r: bv32, q: bv32, s: seq<byte>)
    requires r != q
    ensures OggCrc(r, s) != OggCrc(q, s)
    decreases s
  {
    hide OggShiftIn, OggWord, Bits;
    if s != [] {
      var r', q' := OggShiftIn(r, OggWord(Bits(s[0])), 8), OggShiftIn(q, OggWord(Bits(s[0])), 8);
      if r' == q' {
        StepIsInjective(r, s[0], q, s[0]);
      }
      RegistersStayApart(r', q', s[1..]);
    }
  }

  lemma OneByteMoves(s: seq<byte>, i: nat, b: byte)
    requires i < |s| && s[i] != b
    ensures OggCrc(0, s[i := b]) != OggCrc(0, s)
  {
    hide OggShiftIn, OggWord, Bits, OggCrc;
    var r := OggCrc(0, s[..i]);
    assert s == s[..i] + [s[i]] + s[i + 1..];
    assert s[i := b] == s[..i] + [b] + s[i + 1..];
    OggCrcAppend(0, s[..i] + [s[i]], s[i + 1..]);
    OggCrcAppend(0, s[..i] + [b], s[i + 1..]);
    OggCrcSnoc(0, s[..i], s[i]);
    OggCrcSnoc(0, s[..i], b);
    if OggShiftIn(r, OggWord(Bits(s[i])), 8) == OggShiftIn(r, OggWord(Bits(b)), 8) {
      StepIsInjective(r, s[i], r, b);
    }
    RegistersStayApart(OggCrc(0, s[..i] + [s[i]]), OggCrc(0, s[..i] + [b]), s[i + 1..]);
  }

  lemma ChangedFields(page: seq<byte>, i: nat, b: byte)
    requires |page| >= OGG_FIXED_HEADER_BYTES && i < |page| && page[i] != b
    ensures 22 <= i <= 25 ==>
              WithoutChecksum(page[i := b]) == WithoutChecksum(page) && U32LE(page[i := b], 22) != U32LE(page, 22)
    ensures !(22 <= i <= 25) ==>
              && WithoutChecksum(page[i := b]) == WithoutChecksum(page)[i := b]
              && WithoutChecksum(page)[i] == page[i]
              && U32LE(page[i := b], 22) == U32LE(page, 22)
  {
  }

  /** Changing any one byte of a valid page, its checksum field included, makes it invalid. */
  lemma OneByteChangeIsDetected(page: seq<byte>, i: nat, b: byte)
    requires ChecksumHolds(page) && i < |page| && page[i] != b
    ensures !ChecksumHolds(page[i := b])
  {
    hide OggCrc, U32LE, WithoutChecksum, Number;
    ChangedFields(page, i, b);
    if !(22 <= i <= 25) {
      OneByteMoves(WithoutChecksum(page), i, b);
      if Number(OggCrc(0, WithoutChecksum(page)[i := b])) == Number(OggCrc(0, WithoutChecksum(page))) {
        NumbersAreDistinct(OggCrc(0, WithoutChecksum(page)[i := b]), OggCrc(0, WithoutChecksum(page)));
      }
    }
  }

  // ----- the PNG chunk checksum -----

  lemma {:induction false} PngCrcAppend(r: bv32, a: seq<byte>, b: seq<byte>)
    ensures PngCrc(r, a + b) == PngCrc(PngCrc(r, a), b)
    decreases a
  {
    hide PngShiftIn, Bits;
    if a == [] {
      assert a + b == b;
    } else {
      assert (a + b)[0] == a[0] && (a + b)[1..] == a[1..] + b;
      PngCrcAppend(PngShiftIn(r, Bits(a[0]), 8), a[1..], b);
    }
  }

  lemma AddPngEntry(r: bv32, b: bv32, entry: bv32)
    requires b <= 0xff && entry == PngClock(PngIndex(r, b), 8)
    ensures entry ^ (r >> 8) == PngShiftIn(r, b, 8)
  {
    hide *;
    PngTableStep(r, b);
    XorMeans(entry, r >> 8);
  }

  lemma PngEntry(table: seq<bv32>, r: bv32, b: bv32)
    requires IsPngTable(table)
    ensures |table| == 256 && table[Slot(r ^ b)] == PngClock(PngIndex(r, b), 8)
  {
    hide PngClock, Bits, Slot, PngIndex;
    BitsOfSlot(r ^ b);
    PngIndexMeans(r, b);
  }

  lemma PngIndexMeans(r: bv32, b: bv32)
    ensures PngIndex(r, b) == (r ^ b) & 0xff
  {
  }

  /** `updateCrc32`: the table-driven update is the bit-serial one. */
  method UpdateCrc32(table: seq<bv32>, initial: bv32, bytes: seq<byte>) returns (crc: bv32)
    requires IsPngTable(table)
    ensures crc == PngCrc(initial, bytes)
  {
    hide PngShiftIn, PngClock, Bits, Slot, PngIndex;
    crc := initial;
    for index := 0 to |bytes|
      invariant PngCrc(crc, bytes[index..]) == PngCrc(initial, bytes)
    {
      var value := bytes[index];
      PngEntry(table, crc, Bits(value));
      var entry := table[Slot(crc ^ Bits(value))];
      AddPngEntry(crc, Bits(value), entry);
      assert bytes[index..][0] == value && bytes[index..][1..] == bytes[index + 1..];
      crc := entry ^ (crc >> 8);
    }
  }

  /** The file bytes at a position, or nothing when the file ends before them. */
  function ReadExactly(file: seq<byte>, length: nat, position: nat): (r: Option<seq<byte>>)
    ensures r.Some? ==> |r.value| == length
  {
    if length == 0 then Some([])
    else if position + length <= |file| then Some(file[position..position + length])
    else None
  }

  /** The checksum as stored: the register's complement. */
  function Finished(crc: bv32): int
  {
    Number(crc ^ 0xffff_ffff)
  }

  function U32BE(s: seq<byte>): nat
    requires |s| == 4
  {
    0x100_0000 * s[0] as int + 0x1_0000 * s[1] as int + 0x100 * s[2] as int + s[3] as int
  }

  /** The stored checksum of a chunk is the checksum of its type and data in one pass (RFC 2083 section 3.4). */
  ghost predicate ChunkChecksumHolds(file: seq<byte>, typeBytes: seq<byte>, dataOffset: nat, dataLength: nat, crcOffset: nat)
  {
    && (dataLength > 0 ==> dataOffset + dataLength <= |file|)
    && crcOffset + 4 <= |file|
    && var data := if dataLength == 0 then [] else file[dataOffset..dataOffset + dataLength];
       Finished(PngCrc(0xffff_ffff, typeBytes + data)) == U32BE(file[crcOffset..crcOffset + 4])
  }

  /** `validatePngChunkCrc`: reading the data in 64 KiB pieces makes no difference. */
  method ValidatePngChunkCrc(table: seq<bv32>, file: seq<byte>, typeBytes: seq<byte>,
                             dataOffset: nat, dataLength: nat, crcOffset: nat) returns (ok: bool)
    requires IsPngTable(table)
    ensures ok <==> ChunkChecksumHolds(file, typeBytes, dataOffset, dataLength, crcOffset)
  {
    hide PngCrc, Finished, U32BE;
    var crc := UpdateCrc32(table, 0xffff_ffff, typeBytes);
    assert typeBytes + [] == typeBytes;
    var readOffset := 0;
    while readOffset < dataLength
      invariant readOffset <= dataLength
      invariant readOffset > 0 ==> dataOffset + readOffset <= |file|
      invariant var data := if readOffset == 0 then [] else file[dataOffset..dataOffset + readOffset];
                crc == PngCrc(0xffff_ffff, typeBytes + data)
    {
      var length := if PNG_CRC_READ_BYTES < dataLength - readOffset then PNG_CRC_READ_BYTES else dataLength - readOffset;
      var chunk := ReadExactly(file, length, dataOffset + readOffset);
      if chunk.None? {
        return false;
      }
      ghost var data := if readOffset == 0 then [] else file[dataOffset..dataOffset + readOffset];
      PngCrcAppend(0xffff_ffff, typeBytes + data, chunk.value);
      assert typeBytes + data + chunk.value == typeBytes + file[dataOffset..dataOffset + readOffset + length];
      crc := UpdateCrc32(table, crc, chunk.value);
      readOffset := readOffset + length;
    }
    var expectedBytes := ReadExactly(file, 4, crcOffset);
    if expectedBytes.None? {
      return false;
    }
    return Finished(crc) == U32BE(expectedBytes.value);
  }

  function ReversedByteOf(b: byte): bv32
  {
    Reverse(Bits(b)) >> 24
  }

  /** The Ogg register fed with bytes whose bits are reversed. */
  function OggCrcOfReversed(r: bv32, s: seq<byte>): bv32
    decreases s
  {
    if s == [] then r else OggCrcOfReversed(OggShiftIn(r, OggWord(ReversedByteOf(s[0])), 8), s[1..])
  }

  /** The PNG update is the bit reversal of the Ogg update. */
  lemma {:induction false} PngIsReversedOgg(r: bv32, s: seq<byte>)
    ensures Reverse(PngCrc(r, s)) == OggCrcOfReversed(Reverse(r), s)
    decreases s
  {
    hide PngShiftIn, OggShiftIn, Bits, OggWord, Reverse;
    if s != [] {
      PngShiftInIsReversed(r, Bits(s[0]), 8);
      ReversedByte(Bits(s[0]));
      PngIsReversedOgg(PngShiftIn(r, Bits(s[0]), 8), s[1..]);
    }
  }
}
