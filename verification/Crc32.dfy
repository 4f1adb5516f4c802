/** The CRC-32 of webrtc/base/crc32.cc, which follows section 8 of RFC 1952: a register fed bit by
    bit, lowest bit of each byte first, is the definition; a table of 256 entries is the program. */
module Crc32 {

  const POLYNOMIAL: bv32 := 0xEDB88320
  const ALL_ONES: bv32 := 0xFFFFFFFF
  const TOP_BIT: bv32 := 0x80000000

  // ----- The definition

  /** One step of the register, and n of them. */
  function ShiftBit(c: bv32): bv32 {
    if c & 1 == 1 then POLYNOMIAL ^ (c >> 1) else c >> 1
  }

  function Shift(c: bv32, n: nat): bv32
    decreases n
  {
    if n == 0 then c else Shift(ShiftBit(c), n - 1)
  }

  function BitValue(b: bool): bv32 {
    if b then 1 else 0
  }

  /** c ^ d, under a name that proofs can keep closed. */
  function Xor(c: bv32, d: bv32): bv32 {
    c ^ d
  }

  /** The register after a sequence of bits. */
  function Feed(c: bv32, bits: seq<bool>): bv32
    decreases |bits|
  {
    if bits == [] then c else Feed(ShiftBit(Xor(c, BitValue(bits[0]))), bits[1..])
  }

  function BitsOfByte(b: bv8): (bits: seq<bool>)
    ensures |bits| == 8
  {
    [b & 1 == 1, (b >> 1) & 1 == 1, (b >> 2) & 1 == 1, (b >> 3) & 1 == 1,
     (b >> 4) & 1 == 1, (b >> 5) & 1 == 1, (b >> 6) & 1 == 1, (b >> 7) & 1 == 1]
  }

  function Bits(data: seq<bv8>): (bits: seq<bool>)
    ensures |bits| == 8 * |data|
  {
    if data == [] then [] else BitsOfByte(data[0]) + Bits(data[1..])
  }

  function BitwiseCrc(start: bv32, data: seq<bv8>): bv32 {
    Xor(Feed(Xor(start, ALL_ONES), Bits(data)), ALL_ONES)
  }

  // ----- Facts about words; the lemmas after them keep the bits closed

  lemma XorFacts(c: bv32, d: bv32, e: bv32)
    ensures Xor(c, 0) == c && Xor(c, c) == 0
    ensures Xor(Xor(c, d), e) == Xor(c, Xor(d, e)) && Xor(c, d) == Xor(d, c)
  {
  }

  lemma LinearIfBothOdd(c: bv32, d: bv32)
    requires c & 1 == 1 && d & 1 == 1
    ensures ShiftBit(Xor(c, d)) == Xor(ShiftBit(c), ShiftBit(d))
  {
  }

  lemma LinearIfBothEven(c: bv32, d: bv32)
    requires c & 1 == 0 && d & 1 == 0
    ensures ShiftBit(Xor(c, d)) == Xor(ShiftBit(c), ShiftBit(d))
  {
  }

  lemma LinearIfOddEven(c: bv32, d: bv32)
    requires c & 1 == 1 && d & 1 == 0
    ensures ShiftBit(Xor(c, d)) == Xor(ShiftBit(c), ShiftBit(d))
    ensures ShiftBit(Xor(d, c)) == Xor(ShiftBit(d), ShiftBit(c))
  {
  }

  lemma EvenOrOdd(c: bv32)
    ensures c & 1 == 0 || c & 1 == 1
  {
  }

  lemma ShiftBitIsLinear(c: bv32, d: bv32)
    ensures ShiftBit(Xor(c, d)) == Xor(ShiftBit(c), ShiftBit(d))
  {
    hide ShiftBit, Xor;
    EvenOrOdd(c);
    EvenOrOdd(d);
    if c & 1 == 1 {
      if d & 1 == 1 { LinearIfBothOdd(c, d); } else { LinearIfOddEven(c, d); }
    } else {
      if d & 1 == 1 { LinearIfOddEven(d, c); } else { LinearIfBothEven(c, d); }
    }
  }

  function UnshiftBit(c: bv32): bv32 {
    if c & TOP_BIT == TOP_BIT then ((c ^ POLYNOMIAL) << 1) | 1 else c << 1
  }

  lemma ShiftBitInvertible(c: bv32)
    ensures UnshiftBit(ShiftBit(c)) == c
  {
  }

  /** A word one place up, with a bit in the place that gets free. */
  function Above(first: bv32, p: bv32): bv32 {
    Xor(first, p << 1)
  }

  lemma ShiftsDown(p: bv32)
    requires p & TOP_BIT == 0
    ensures ShiftBit(p << 1) == p
  {
  }

  lemma OddParts(p: bv32)
    requires p & TOP_BIT == 0
    ensures Above(1, p) & 1 == 1 && Above(1, p) >> 1 == p
  {
  }

  lemma EvenParts(p: bv32)
    requires p & TOP_BIT == 0
    ensures Above(0, p) & 1 == 0 && Above(0, p) >> 1 == p
  {
  }

  lemma AboveParts(a: bool, p: bv32)
    requires p & TOP_BIT == 0
    ensures (Above(BitValue(a), p) & 1 == 1 <==> a) && Above(BitValue(a), p) >> 1 == p
  {
    hide Above;
    if a {
      OddParts(p);
    } else {
      EvenParts(p);
    }
  }

  lemma AboveInjective(a: bool, p: bv32, b: bool, q: bv32)
    requires p & TOP_BIT == 0 && q & TOP_BIT == 0 && Above(BitValue(a), p) == Above(BitValue(b), q)
    ensures a == b && p == q
  {
    hide Above, BitValue;
    AboveParts(a, p);
    AboveParts(b, q);
  }

  // ----- Facts about the register

  lemma {:induction false} FeedSplit(c: bv32, a: seq<bool>, b: seq<bool>)
    ensures Feed(c, a + b) == Feed(Feed(c, a), b)
    decreases |a|
  {
    hide Xor, ShiftBit, BitValue;
    if a == [] {
      assert a + b == b;
    } else {
      assert (a + b)[1..] == a[1..] + b;
      FeedSplit(ShiftBit(Xor(c, BitValue(a[0]))), a[1..], b);
    }
  }

  lemma {:induction false} BitsSplit(a: seq<bv8>, b: seq<bv8>)
    ensures Bits(a + b) == Bits(a) + Bits(b)
  {
    hide BitsOfByte;
    if a == [] {
      assert a + b == b;
    } else {
      assert (a + b)[1..] == a[1..] + b;
      BitsSplit(a[1..], b);
    }
  }

  /** Up to 32 bits, packed into a word, the first one lowest. */
  function Pack(bits: seq<bool>): bv32 {
    if bits == [] then 0 else Above(BitValue(bits[0]), Pack(bits[1..]))
  }

  function OneUp(m: bv32): bv32 {
    (m << 1) | 1
  }

  function LowMask(n: nat): bv32 {
    if n == 0 then 0 else OneUp(LowMask(n - 1))
  }

  predicate Within(p: bv32, m: bv32) {
    p & !m == 0
  }

  lemma AboveWithin(b: bool, p: bv32, m: bv32)
    requires Within(p, m)
    ensures Within(Above(BitValue(b), p), OneUp(m))
  {
  }

  lemma MaskWithin(p: bv32, m: bv32)
    requires Within(p, m)
    ensures Within(OneUp(p), OneUp(m))
  {
  }

  lemma WithinTwice(p: bv32, m: bv32, k: bv32)
    requires Within(p, m) && Within(m, k)
    ensures Within(p, k)
  {
  }

  lemma BelowTop(p: bv32)
    requires Within(p, 0x7FFFFFFF)
    ensures p & TOP_BIT == 0
  {
  }

  lemma {:induction false} PackFits(bits: seq<bool>)
    ensures Within(Pack(bits), LowMask(|bits|))
  {
    if bits != [] {
      hide Within, Above, BitValue, OneUp;
      PackFits(bits[1..]);
      AboveWithin(bits[0], Pack(bits[1..]), LowMask(|bits| - 1));
    }
  }

  lemma {:induction false} MasksGrow(n: nat, m: nat)
    requires n <= m
    ensures Within(LowMask(n), LowMask(m))
    decreases m
  {
    if n > 0 {
      hide Within, OneUp;
      MasksGrow(n - 1, m - 1);
      MaskWithin(LowMask(n - 1), LowMask(m - 1));
    }
  }

  lemma MaskValues()
    ensures LowMask(8) == 0xFF && LowMask(31) == 0x7FFFFFFF
  {
    assert LowMask(2) == 0x3;
    assert LowMask(4) == 0xF;
    assert LowMask(6) == 0x3F;
    assert LowMask(8) == 0xFF;
    assert LowMask(10) == 0x3FF;
    assert LowMask(12) == 0xFFF;
    assert LowMask(14) == 0x3FFF;
    assert LowMask(16) == 0xFFFF;
    assert LowMask(18) == 0x3FFFF;
    assert LowMask(20) == 0xFFFFF;
    assert LowMask(22) == 0x3FFFFF;
    assert LowMask(24) == 0xFFFFFF;
    assert LowMask(26) == 0x3FFFFFF;
    assert LowMask(28) == 0xFFFFFFF;
    assert LowMask(30) == 0x3FFFFFFF;
  }

  lemma PackBelowTop(bits: seq<bool>)
    requires |bits| < 32
    ensures Pack(bits) & TOP_BIT == 0
  {
    hide Pack, LowMask, Within;
    PackFits(bits);
    MasksGrow(|bits|, 31);
    MaskValues();
    WithinTwice(Pack(bits), LowMask(|bits|), 0x7FFFFFFF);
    BelowTop(Pack(bits));
  }

  lemma ShiftPast(c: bv32, first: bv32, p: bv32)
    requires p & TOP_BIT == 0
    ensures ShiftBit(Xor(c, Above(first, p))) == Xor(ShiftBit(Xor(c, first)), p)
  {
    hide Xor, ShiftBit;
    XorFacts(c, first, p << 1);
    ShiftBitIsLinear(Xor(c, first), p << 1);
    ShiftsDown(p);
  }

  /** Feeding up to 32 bits is xoring them into the register, and shifting. */
  lemma {:induction false} FeedIsShift(c: bv32, bits: seq<bool>)
    requires |bits| <= 32
    ensures Feed(c, bits) == Shift(Xor(c, Pack(bits)), |bits|)
    decreases |bits|
  {
    hide ShiftBit, BitValue, Xor, Above;
    if bits == [] {
      XorFacts(c, 0, 0);
    } else {
      var first, p := BitValue(bits[0]), Pack(bits[1..]);
      PackBelowTop(bits[1..]);
      ShiftPast(c, first, p);
      FeedIsShift(ShiftBit(Xor(c, first)), bits[1..]);
    }
  }

  lemma {:induction false} ShiftInjective(c: bv32, d: bv32, n: nat)
    requires Shift(c, n) == Shift(d, n)
    ensures c == d
    decreases n
  {
    hide ShiftBit, UnshiftBit;
    if n > 0 {
      ShiftInjective(ShiftBit(c), ShiftBit(d), n - 1);
      ShiftBitInvertible(c);
      ShiftBitInvertible(d);
    }
  }

  lemma {:induction false} ShiftIsLinear(c: bv32, d: bv32, n: nat)
    ensures Shift(Xor(c, d), n) == Xor(Shift(c, n), Shift(d, n))
    decreases n
  {
    hide ShiftBit, Xor;
    if n > 0 {
      ShiftBitIsLinear(c, d);
      ShiftIsLinear(ShiftBit(c), ShiftBit(d), n - 1);
    }
  }

  // ----- The table

  function ShiftRight(c: bv32, n: nat): bv32
    decreases n
  {
    if n == 0 then c else ShiftRight(c >> 1, n - 1)
  }

  predicate Clear(c: bv32, m: bv32) {
    c & m == 0
  }

  lemma ClearStep(c: bv32, m: bv32)
    requires Clear(c, OneUp(m))
    ensures ShiftBit(c) == c >> 1 && Clear(c >> 1, m)
  {
  }

  lemma {:induction false} ShiftClear(c: bv32, n: nat)
    requires Clear(c, LowMask(n))
    ensures Shift(c, n) == ShiftRight(c, n)
    decreases n
  {
    hide ShiftBit, Clear, OneUp;
    if n > 0 {
      ClearStep(c, LowMask(n - 1));
      ShiftClear(c >> 1, n - 1);
    }
  }

  lemma ShiftRightByByte(c: bv32)
    ensures ShiftRight(c, 8) == c >> 8
  {
    assert ShiftRight(c, 8) == ShiftRight(c >> 2, 6);
    assert ShiftRight(c >> 2, 6) == ShiftRight(c >> 4, 4);
    assert ShiftRight(c >> 4, 4) == ShiftRight(c >> 6, 2);
    assert ShiftRight(c >> 6, 2) == c >> 8;
  }

  lemma SplitWord(c: bv32)
    ensures Xor(c & 0xFF, c & 0xFFFFFF00) == c && Clear(c & 0xFFFFFF00, 0xFF)
    ensures (c & 0xFFFFFF00) >> 8 == c >> 8
  {
  }

  /** Eight shifts are one table look-up. */
  lemma ShiftByByte(c: bv32)
    ensures Shift(c, 8) == Xor(Shift(c & 0xFF, 8), c >> 8)
  {
    hide Shift, ShiftRight, LowMask, Xor, Clear;
    var low, high := c & 0xFF, c & 0xFFFFFF00;
    SplitWord(c);
    ShiftIsLinear(low, high, 8);
    MaskValues();
    ShiftClear(high, 8);
    ShiftRightByByte(high);
  }

  lemma PackEight(b0: bool, b1: bool, b2: bool, b3: bool, b4: bool, b5: bool, b6: bool, b7: bool)
    ensures Pack([b0, b1, b2, b3, b4, b5, b6, b7]) ==
            Above(BitValue(b0), Above(BitValue(b1), Above(BitValue(b2), Above(BitValue(b3),
            Above(BitValue(b4), Above(BitValue(b5), Above(BitValue(b6), BitValue(b7))))))))
  {
    hide Pack, Above, BitValue;
    assert [b0, b1, b2, b3, b4, b5, b6, b7] == [b0, b1, b2, b3] + [b4, b5, b6, b7];
    PackFourOnto(b0, b1, b2, b3, [b4, b5, b6, b7]);
    assert [b4, b5, b6, b7] == [b4, b5] + [b6, b7];
    PackTwoOnto(b4, b5, [b6, b7]);
    assert [b6, b7] == [b6] + [b7];
    PackCons(b6, [b7]);
    PackOne(b7);
  }

  lemma PackFourOnto(a: bool, b: bool, c: bool, d: bool, bits: seq<bool>)
    ensures Pack([a, b, c, d] + bits) ==
            Above(BitValue(a), Above(BitValue(b), Above(BitValue(c), Above(BitValue(d), Pack(bits)))))
  {
    hide Pack, Above, BitValue;
    assert [a, b, c, d] + bits == [a, b] + ([c, d] + bits);
    PackTwoOnto(a, b, [c, d] + bits);
    PackTwoOnto(c, d, bits);
  }

  lemma PackTwoOnto(a: bool, b: bool, bits: seq<bool>)
    ensures Pack([a, b] + bits) == Above(BitValue(a), Above(BitValue(b), Pack(bits)))
  {
    hide Pack, Above, BitValue;
    assert [a, b] + bits == [a] + ([b] + bits);
    PackCons(a, [b] + bits);
    PackCons(b, bits);
  }

  lemma PackCons(b: bool, bits: seq<bool>)
    ensures Pack([b] + bits) == Above(BitValue(b), Pack(bits))
  {
    hide Above, BitValue;
    assert ([b] + bits)[1..] == bits;
  }

  lemma PackOne(b: bool)
    ensures Pack([b]) == BitValue(b)
  {
    assert [b][1..] == [];
    XorFacts(BitValue(b), 0, 0);
    ShiftedZero();
  }

  lemma ShiftedZero()
    ensures (0 as bv32) << 1 == 0
  {
  }

  /** The bits of a byte, packed again, are the byte. */
  lemma PackByte(b: bv8)
    ensures Pack(BitsOfByte(b)) == b as bv32
  {
    hide Pack;
    PackEight(b & 1 == 1, (b >> 1) & 1 == 1, (b >> 2) & 1 == 1, (b >> 3) & 1 == 1,
              (b >> 4) & 1 == 1, (b >> 5) & 1 == 1, (b >> 6) & 1 == 1, (b >> 7) & 1 == 1);
  }

  function TableIndex(c: bv32, b: bv8): (i: bv32)
    ensures i < 256
  {
    Xor(c, b as bv32) & 0xFF
  }

  lemma HighBytes(c: bv32, b: bv8)
    ensures Xor(c, b as bv32) >> 8 == c >> 8
  {
  }

  /** Feeding the eight bits of a byte is one step of the program. */
  lemma TableStep(c: bv32, b: bv8)
    ensures Feed(c, BitsOfByte(b)) == Xor(Shift(TableIndex(c, b), 8), c >> 8)
  {
    hide Shift, Feed, Pack, BitsOfByte, Xor;
    FeedIsShift(c, BitsOfByte(b));
    PackByte(b);
    ShiftByByte(Xor(c, b as bv32));
    HighBytes(c, b);
  }

  lemma WordAndBack(a: bv32)
    ensures (a as int) as bv32 == a
  {
  }

  lemma SmallWord(a: bv32)
    requires a < 256
    ensures a as int < 256
  {
  }

  lemma IndexInTable(c: bv32, b: bv8)
    ensures (TableIndex(c, b) as int) < 256 && (TableIndex(c, b) as int) as bv32 == TableIndex(c, b)
  {
    hide TableIndex;
    var index := TableIndex(c, b);
    SmallWord(index);
    WordAndBack(index);
  }

  lemma {:induction false} ShiftOfZero(n: nat)
    ensures Shift(0, n) == 0
    decreases n
  {
    if n > 0 {
      ShiftOfZero(n - 1);
    }
  }

  /** The last entry is not 0, so that the test for an initialised table is right. */
  lemma LastEntry()
    ensures Shift(255, 8) != 0
  {
    hide Shift;
    ShiftOfZero(8);
    if Shift(255, 8) == 0 {
      ShiftInjective(255, 0, 8);
    }
  }

  class Crc {
    // kCrc32Table, all zeros at first.
    const table: array<bv32>

    constructor ()
      ensures Valid() && fresh(table)
    {
      table := new bv32[256](_ => 0);
    }

    /** The table is empty or complete, and its last entry tells which. */
    ghost predicate Valid()
      reads table
    {
      table.Length == 256 && (table[255] != 0 ==> Filled(256))
    }

    ghost predicate Filled(n: nat)
      requires table.Length == 256
      reads table
    {
      forall i :: 0 <= i < n && i < 256 ==> table[i] == Shift(i as bv32, 8)
    }

    method EnsureCrc32TableInited()
      requires Valid()
      modifies table
      ensures Valid() && Filled(256) && table[255] != 0
    {
      hide Shift, ShiftBit;
      LastEntry();
      if table[255] != 0 {
        return;
      }
      for i := 0 to 256
        invariant Filled(i)
      {
        table[i] := TableEntry(i as bv32);
      }
      assert table[255] == Shift(255 as bv32, 8);
    }

    method TableEntry(i: bv32) returns (c: bv32)
      ensures c == Shift(i, 8)
    {
      hide Shift, ShiftBit;
      c := i;
      for j := 0 to 8
        invariant Shift(c, 8 - j) == Shift(i, 8)
      {
        ShiftOnce(c, 8 - j);
        if c & 1 == 1 {
          c := POLYNOMIAL ^ (c >> 1);
        } else {
          c := c >> 1;
        }
      }
      ShiftNot(c);
    }

    /** UpdateCrc32: the table-driven form computes the bitwise definition. */
    method UpdateCrc32(start: bv32, buf: seq<bv8>) returns (crc: bv32)
      requires Valid()
      modifies table
      ensures Valid() && crc == BitwiseCrc(start, buf)
    {
      hide Shift, Feed, BitsOfByte, Bits, Xor;
      EnsureCrc32TableInited();
      var c := Xor(start, ALL_ONES);
      assert buf[0..] == buf;
      for i := 0 to |buf|
        invariant Valid() && Filled(256)
        invariant Feed(c, Bits(buf[i..])) == Feed(Xor(start, ALL_ONES), Bits(buf))
      {
        BitsOfNext(buf, i);
        FeedSplit(c, BitsOfByte(buf[i]), Bits(buf[i + 1..]));
        TableStep(c, buf[i]);
        IndexInTable(c, buf[i]);
        c := Xor(table[TableIndex(c, buf[i]) as int], c >> 8);
      }
      FeedNothing(c);
      assert buf[|buf|..] == [];
      crc := Xor(c, ALL_ONES);
    }
  }

  lemma ShiftOnce(c: bv32, n: nat)
    requires n > 0
    ensures Shift(c, n) == Shift(if c & 1 == 1 then POLYNOMIAL ^ (c >> 1) else c >> 1, n - 1)
  {
  }

  lemma ShiftNot(c: bv32)
    ensures Shift(c, 0) == c
  {
  }

  lemma BitsOfNext(buf: seq<bv8>, i: nat)
    requires i < |buf|
    ensures Bits(buf[i..]) == BitsOfByte(buf[i]) + Bits(buf[i + 1..])
  {
    assert buf[i..][1..] == buf[i + 1..];
  }

  lemma FeedNothing(c: bv32)
    ensures Feed(c, Bits([])) == c
  {
  }

  /** Updates compose: two calls are one call over both buffers. */
  lemma UpdatesCompose(start: bv32, a: seq<bv8>, b: seq<bv8>)
    ensures BitwiseCrc(BitwiseCrc(start, a), b) == BitwiseCrc(start, a + b)
  {
    hide Feed, Bits, Xor;
    var mid := Feed(Xor(start, ALL_ONES), Bits(a));
    XorFacts(mid, ALL_ONES, ALL_ONES);
    XorFacts(ALL_ONES, 0, 0);
    XorFacts(mid, 0, 0);
    BitsSplit(a, b);
    FeedSplit(Xor(start, ALL_ONES), Bits(a), Bits(b));
  }

  // ----- Which polynomial it is

  predicate HasBit(c: bv32, n: bv5) {
    (c >> n) & 1 == 1
  }

  /** The exponents of the polynomial in section 8 of RFC 1952, besides 32.  As the word is the
      reversed form, the exponent e is bit 31 - e. */
  lemma PolynomialIsStandard(e: bv5)
    ensures HasBit(POLYNOMIAL, 31 - e) <==> e in {26, 23, 22, 16, 12, 11, 10, 8, 7, 5, 4, 2, 1, 0}
  {
  }

  lemma ShiftTwice(c: bv32, d: bv32, n: nat)
    requires n >= 2 && ShiftBit(ShiftBit(c)) == d
    ensures Shift(c, n) == Shift(d, n - 2)
  {
    hide ShiftBit;
  }

  lemma EntryFF()
    ensures Shift(0xFF, 8) == 0x2D02EF8D
  {
    ShiftTwice(0xFF, 0x9B64C28F, 8);
    ShiftTwice(0x9B64C28F, 0xBDBDF213, 6);
    ShiftTwice(0xBDBDF213, 0xB40BBE34, 4);
    ShiftTwice(0xB40BBE34, 0x2D02EF8D, 2);
    ShiftNot(0x2D02EF8D);
  }

  lemma Entry72()
    ensures Shift(0x72, 8) == 0xBE0B1010
  {
    ShiftTwice(0x72, 0xEDB8833C, 8);
    ShiftTwice(0xEDB8833C, 0x3B6E20CF, 6);
    ShiftTwice(0x3B6E20CF, 0x95BF4A83, 4);
    ShiftTwice(0x95BF4A83, 0xBE0B1010, 2);
    ShiftNot(0xBE0B1010);
  }

  lemma EntryED()
    ensures Shift(0xED, 8) == 0xDEBB9EC5
  {
    ShiftTwice(0xED, 0x76DC41AB, 8);
    ShiftTwice(0x76DC41AB, 0x86D3D2DA, 6);
    ShiftTwice(0x86D3D2DA, 0xCC0C7796, 4);
    ShiftTwice(0xCC0C7796, 0xDEBB9EC5, 2);
    ShiftNot(0xDEBB9EC5);
  }

  /** What a register with `k` xored in becomes when a byte of the check is fed. */
  function NextResidue(k: bv32): bv32 {
    Xor(Shift(Xor(k, 0xFF) & 0xFF, 8), Down(k))
  }

  function Down(w: bv32): bv32 {
    w >> 8
  }

  /** One byte of the check fed into the register: what is left of the register moves down, and what
      comes in depends on neither. */
  lemma ResidueStep(k: bv32, w: bv32, b: bv8)
    requires b as bv32 == Xor(w, 0xFF) & 0xFF
    ensures Feed(Xor(k, w), BitsOfByte(b)) == Xor(NextResidue(k), Down(w))
  {
    hide Shift, Feed, BitsOfByte, Xor;
    TableStep(Xor(k, w), b);
    ResidueIndex(k, w, b as bv32);
    DownIsLinear(k, w);
    XorFacts(Shift(Xor(k, 0xFF) & 0xFF, 8), Down(k), Down(w));
  }

  lemma ResidueIndex(k: bv32, w: bv32, e: bv32)
    requires e == Xor(w, 0xFF) & 0xFF
    ensures Xor(Xor(k, w), e) & 0xFF == Xor(k, 0xFF) & 0xFF
  {
  }

  lemma DownIsLinear(k: bv32, w: bv32)
    ensures Down(Xor(k, w)) == Xor(Down(k), Down(w))
  {
  }

  /** The four bytes of a word, lowest first. */
  function LowFirst(c: bv32): (bytes: seq<bv8>)
    ensures |bytes| == 4
  {
    [(c & 0xFF) as bv8, ((c >> 8) & 0xFF) as bv8, ((c >> 16) & 0xFF) as bv8, ((c >> 24) & 0xFF) as bv8]
  }

  lemma FeedFour(c: bv32, b: seq<bv8>)
    requires |b| == 4
    ensures Feed(c, Bits(b)) ==
            Feed(Feed(Feed(Feed(c, BitsOfByte(b[0])), BitsOfByte(b[1])), BitsOfByte(b[2])), BitsOfByte(b[3]))
  {
    hide Feed, BitsOfByte, Bits;
    assert b[0..] == b && b[4..] == [];
    BitsOfNext(b, 0);
    BitsOfNext(b, 1);
    BitsOfNext(b, 2);
    BitsOfNext(b, 3);
    var c1 := Feed(c, BitsOfByte(b[0]));
    var c2 := Feed(c1, BitsOfByte(b[1]));
    var c3 := Feed(c2, BitsOfByte(b[2]));
    FeedSplit(c, BitsOfByte(b[0]), Bits(b[1..]));
    FeedSplit(c1, BitsOfByte(b[1]), Bits(b[2..]));
    FeedSplit(c2, BitsOfByte(b[2]), Bits(b[3..]));
    FeedSplit(c3, BitsOfByte(b[3]), Bits(b[4..]));
    FeedNothing(Feed(c3, BitsOfByte(b[3])));
  }

  lemma ResidueBytes(w: bv32)
    ensures var b := LowFirst(Xor(w, ALL_ONES));
            && b[0] as bv32 == Xor(w, 0xFF) & 0xFF && b[1] as bv32 == Xor(Down(w), 0xFF) & 0xFF
            && b[2] as bv32 == Xor(Down(Down(w)), 0xFF) & 0xFF && b[3] as bv32 == Xor(Down(Down(Down(w))), 0xFF) & 0xFF
    ensures Down(Down(Down(Down(w)))) == 0
  {
    InvertedBytes(w);
    hide Xor, Down;
    var c := Xor(w, ALL_ONES);
    Narrow(c);
    Narrow(c >> 8);
    Narrow(c >> 16);
    Narrow(c >> 24);
  }

  lemma InvertedBytes(w: bv32)
    ensures var c := Xor(w, ALL_ONES);
            && c & 0xFF == Xor(w, 0xFF) & 0xFF && (c >> 8) & 0xFF == Xor(Down(w), 0xFF) & 0xFF
            && (c >> 16) & 0xFF == Xor(Down(Down(w)), 0xFF) & 0xFF
            && (c >> 24) & 0xFF == Xor(Down(Down(Down(w))), 0xFF) & 0xFF
    ensures Down(Down(Down(Down(w)))) == 0
  {
  }

  lemma Narrow(v: bv32)
    ensures ((v & 0xFF) as bv8) as bv32 == v & 0xFF
  {
  }

  lemma ResidueWords()
    ensures NextResidue(0) == 0x2D02EF8D && NextResidue(0x2D02EF8D) == 0xBE2612FF
    ensures NextResidue(0xBE2612FF) == 0xBE2612 && NextResidue(0xBE2612) == 0xDEBB20E3
  {
    hide Shift;
    EntryFF();
    Entry72();
    ShiftOfZero(8);
    EntryED();
  }

  lemma LastInversion()
    ensures Xor(Xor(0xDEBB20E3, 0), ALL_ONES) == 0x2144DF1C
  {
  }

  /** A message followed by its check, lowest byte first, always has the same check: the residue of
      this polynomial, this order of bits, and these inversions. */
  lemma Residue(start: bv32, data: seq<bv8>)
    ensures BitwiseCrc(start, data + LowFirst(BitwiseCrc(start, data))) == 0x2144DF1C
  {
    hide *;
    var w := Feed(Xor(start, ALL_ONES), Bits(data));
    var b := LowFirst(Xor(w, ALL_ONES));
    assert BitwiseCrc(start, data) == Xor(w, ALL_ONES) by {
      CrcOf(start, data);
    }
    BitsSplit(data, b);
    FeedSplit(Xor(start, ALL_ONES), Bits(data), Bits(b));
    CrcOf(start, data + b);
    CheckFed(w);
    LastInversion();
  }

  lemma CrcOf(start: bv32, data: seq<bv8>)
    ensures BitwiseCrc(start, data) == Xor(Feed(Xor(start, ALL_ONES), Bits(data)), ALL_ONES)
  {
  }

  lemma CheckFed(w: bv32)
    ensures Feed(w, Bits(LowFirst(Xor(w, ALL_ONES)))) == Xor(0xDEBB20E3, 0)
  {
    hide *;
    var b := LowFirst(Xor(w, ALL_ONES));
    FeedFour(w, b);
    ResidueBytes(w);
    ResidueWords();
    ZeroXor(w);
    ResidueStep(0, w, b[0]);
    ResidueStep(0x2D02EF8D, Down(w), b[1]);
    ResidueStep(0xBE2612FF, Down(Down(w)), b[2]);
    ResidueStep(0xBE2612, Down(Down(Down(w))), b[3]);
  }

  lemma ZeroXor(w: bv32)
    ensures Xor(0, w) == w
  {
  }

  // ----- Error bursts

  lemma XorInjective(c: bv32, d: bv32, e: bv32)
    requires Xor(c, e) == Xor(d, e)
    ensures c == d
  {
  }

  lemma XorInjectiveRight(c: bv32, d: bv32, e: bv32)
    requires Xor(c, d) == Xor(c, e)
    ensures d == e
  {
  }

  /** A difference in the register never dies out. */
  lemma {:induction false} FeedInjective(c: bv32, d: bv32, bits: seq<bool>)
    requires Feed(c, bits) == Feed(d, bits)
    ensures c == d
    decreases |bits|
  {
    hide ShiftBit, UnshiftBit, Xor, BitValue;
    if bits != [] {
      var x, y := Xor(c, BitValue(bits[0])), Xor(d, BitValue(bits[0]));
      FeedInjective(ShiftBit(x), ShiftBit(y), bits[1..]);
      ShiftBitInvertible(x);
      ShiftBitInvertible(y);
      XorInjective(c, d, BitValue(bits[0]));
    }
  }

  lemma {:induction false} PackInjective(a: seq<bool>, b: seq<bool>)
    requires |a| == |b| <= 32 && Pack(a) == Pack(b)
    ensures a == b
    decreases |a|
  {
    hide Above, BitValue;
    if a != [] {
      PackBelowTop(a[1..]);
      PackBelowTop(b[1..]);
      AboveInjective(a[0], Pack(a[1..]), b[0], Pack(b[1..]));
      PackInjective(a[1..], b[1..]);
      assert a == [a[0]] + a[1..] && b == [b[0]] + b[1..];
    }
  }

  lemma {:induction false} BitsInjective(a: seq<bv8>, b: seq<bv8>)
    requires |a| == |b| && Bits(a) == Bits(b)
    ensures a == b
  {
    hide BitsOfByte;
    if a != [] {
      assert Bits(a)[..8] == BitsOfByte(a[0]) && Bits(b)[..8] == BitsOfByte(b[0]);
      assert Bits(a)[8..] == Bits(a[1..]) && Bits(b)[8..] == Bits(b[1..]);
      BitsInjective(a[1..], b[1..]);
      PackByte(a[0]);
      PackByte(b[0]);
      BytesFromWords(a[0], b[0]);
      assert a == [a[0]] + a[1..] && b == [b[0]] + b[1..];
    }
  }

  lemma BytesFromWords(x: bv8, y: bv8)
    requires x as bv32 == y as bv32
    ensures x == y
  {
  }

  /** Different messages of the same length that agree outside of a window of at most 32
      consecutive bits have different checks, from whatever start value. */
  lemma BurstDetected(start: bv32, a: seq<bv8>, b: seq<bv8>, i: nat, n: nat)
    requires |a| == |b| && a != b && n <= 32 && i + n <= |Bits(a)|
    requires Bits(a)[..i] == Bits(b)[..i] && Bits(a)[i + n..] == Bits(b)[i + n..]
    ensures BitwiseCrc(start, a) != BitwiseCrc(start, b)
  {
    hide Feed, Xor, Pack, Shift;
    var p, q := Bits(a), Bits(b);
    var v, w, tail := p[i..i + n], q[i..i + n], p[i + n..];
    assert p == p[..i] + (v + tail) && q == p[..i] + (w + tail);
    if BitwiseCrc(start, a) == BitwiseCrc(start, b) {
      var c := Xor(start, ALL_ONES);
      XorInjective(Feed(c, p), Feed(c, q), ALL_ONES);
      FeedSplit(c, p[..i], v + tail);
      FeedSplit(c, p[..i], w + tail);
      var d := Feed(c, p[..i]);
      FeedSplit(d, v, tail);
      FeedSplit(d, w, tail);
      FeedInjective(Feed(d, v), Feed(d, w), tail);
      FeedIsShift(d, v);
      FeedIsShift(d, w);
      ShiftInjective(Xor(d, Pack(v)), Xor(d, Pack(w)), n);
      XorInjectiveRight(d, Pack(v), Pack(w));
      PackInjective(v, w);
      BitsInjective(a, b);
    }
  }

  /** The same for a window of four bytes. */
  lemma FourByteBurstDetected(start: bv32, a: seq<bv8>, b: seq<bv8>, k: nat)
    requires |a| == |b| && a != b && k + 4 <= |a| && a[..k] == b[..k] && a[k + 4..] == b[k + 4..]
    ensures BitwiseCrc(start, a) != BitwiseCrc(start, b)
  {
    hide Bits;
    BytesAsBits(a, k);
    BytesAsBits(a, k + 4);
    BytesAsBits(b, k);
    BytesAsBits(b, k + 4);
    BurstDetected(start, a, b, 8 * k, 32);
  }

  lemma BytesAsBits(a: seq<bv8>, k: nat)
    requires k <= |a|
    ensures Bits(a)[..8 * k] == Bits(a[..k]) && Bits(a)[8 * k..] == Bits(a[k..])
  {
    hide Bits;
    BitsSplit(a[..k], a[k..]);
    assert a == a[..k] + a[k..];
  }
}
