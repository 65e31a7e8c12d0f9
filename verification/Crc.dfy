/** vm/loader.c: the bitwise CRC-32 and the table form of section 8 of RFC 1952. */
module Crc {

  const POLY: bv32 := 0xEDB8_8320

  /** The polynomial of section 8 of RFC 1952, x^32 + x^26 + x^23 + x^22 + x^16 + x^12 + x^11 + x^10 + x^8 + x^7 + x^5 + x^4
      + x^2 + x + 1: the coefficient of x^(31-k) is bit k, and that of x^32 is left out. */
  lemma PolynomialIs()
    ensures POLY == (1 << 5) | (1 << 8) | (1 << 9) | (1 << 15) | (1 << 19) | (1 << 20) | (1 << 21) | (1 << 23) | (1 << 24)
                  | (1 << 26) | (1 << 27) | (1 << 29) | (1 << 30) | (1 << 31)
  {
  }

  function Xor(x: bv32, y: bv32): bv32 { x ^ y }

  /** One turn of the loader's inner loop: the mask is all ones when the low bit is set. */
  function Turn(x: bv32): bv32
  {
    (x >> 1) ^ (POLY & (0 - (x & 1)))
  }

  function Turns(x: bv32, n: nat): bv32
    decreases n
  {
    if n == 0 then x else Turn(Turns(x, n - 1))
  }

  /** One turn as section 8 of RFC 1952 writes it. */
  function TableTurn(x: bv32): bv32
  {
    if x & 1 == 1 then POLY ^ (x >> 1) else x >> 1
  }

  function TableTurns(x: bv32, n: nat): bv32
    decreases n
  {
    if n == 0 then x else TableTurn(TableTurns(x, n - 1))
  }

  /** Section 8 of RFC 1952: an entry of crc_table. */
  function Table(n: bv8): bv32
  {
    TableTurns(n as bv32, 8)
  }

  /** Section 8 of RFC 1952: the register after one more byte. */
  function TableByte(c: bv32, b: bv8): bv32
  {
    Xor(Table(LowByte(Xor(c, b as bv32))), c >> 8)
  }

  function LowByte(x: bv32): bv8 { (x & 0xFF) as bv8 }

  /** Section 8 of RFC 1952: update_crc between its two complements. */
  function Update(c: bv32, xs: seq<bv8>): bv32
  {
    if xs == [] then c else TableByte(Update(c, xs[..|xs| - 1]), xs[|xs| - 1])
  }

  /** Section 8 of RFC 1952: the CRC of a message. */
  function Crc32(xs: seq<bv8>): bv32
  {
    !Update(0xFFFF_FFFF, xs)
  }

  // ---- A known answer ----

  /** One byte of a message, with its table entry. */
  lemma Fed(xs: seq<bv8>, c: bv32, b: bv8, n: bv8, entry: bv32, d: bv32)
    requires Update(0xFFFF_FFFF, xs) == c && LowByte(Xor(c, b as bv32)) == n && Table(n) == entry && Xor(entry, c >> 8) == d
    ensures Update(0xFFFF_FFFF, xs + [b]) == d
  {
    assert (xs + [b])[..|xs|] == xs;
  }

  lemma Entry(n: bv8, x0: bv32, x1: bv32, x2: bv32, x3: bv32, x4: bv32, x5: bv32, x6: bv32, x7: bv32, x8: bv32)
    requires n as bv32 == x0 && TableTurn(x0) == x1 && TableTurn(x1) == x2 && TableTurn(x2) == x3 && TableTurn(x3) == x4
    requires TableTurn(x4) == x5 && TableTurn(x5) == x6 && TableTurn(x6) == x7 && TableTurn(x7) == x8
    ensures Table(n) == x8
  {
    assert TableTurns(x0, 2) == x2;
    assert TableTurns(x0, 4) == x4;
    assert TableTurns(x0, 6) == x6;
  }

  lemma Digit1(xs: seq<bv8>)
    requires Update(0xFFFF_FFFF, xs) == 0xffff_ffff
    ensures Update(0xFFFF_FFFF, xs + [0x31]) == 0x7c23_1048
  {
    Entry(0xce, 0x0000_00ce, 0x0000_0067, 0xedb8_8313, 0x9b64_c2a9, 0xa00a_e274, 0x5005_713a, 0x2802_b89d, 0xf9b9_df6e, 0x7cdc_efb7);
    Fed(xs, 0xffff_ffff, 0x31, 0xce, 0x7cdc_efb7, 0x7c23_1048);
  }

  lemma Digit2(xs: seq<bv8>)
    requires Update(0xFFFF_FFFF, xs) == 0x7c23_1048
    ensures Update(0xFFFF_FFFF, xs + [0x32]) == 0xb0ac_bb32
  {
    Entry(0x7a, 0x0000_007a, 0x0000_003d, 0xedb8_833e, 0x76dc_419f, 0xd6d6_a3ef, 0x86d3_d2d7, 0xaed1_6a4b, 0xbad0_3605, 0xb0d0_9822);
    Fed(xs, 0x7c23_1048, 0x32, 0x7a, 0xb0d0_9822, 0xb0ac_bb32);
  }

  lemma Digit3(xs: seq<bv8>)
    requires Update(0xFFFF_FFFF, xs) == 0xb0ac_bb32
    ensures Update(0xFFFF_FFFF, xs + [0x33]) == 0x77b7_9c2d
  {
    Entry(0x01, 0x0000_0001, 0xedb8_8320, 0x76dc_4190, 0x3b6e_20c8, 0x1db7_1064, 0x0edb_8832, 0x076d_c419, 0xee0e_612c, 0x7707_3096);
    Fed(xs, 0xb0ac_bb32, 0x33, 0x01, 0x7707_3096, 0x77b7_9c2d);
  }

  lemma Digit4(xs: seq<bv8>)
    requires Update(0xFFFF_FFFF, xs) == 0x77b7_9c2d
    ensures Update(0xFFFF_FFFF, xs + [0x34]) == 0x641c_1f5c
  {
    Entry(0x19, 0x0000_0019, 0xedb8_832c, 0x76dc_4196, 0x3b6e_20cb, 0xf00f_9345, 0x95bf_4a82, 0x4adf_a541, 0xc8d7_5180, 0x646b_a8c0);
    Fed(xs, 0x77b7_9c2d, 0x34, 0x19, 0x646b_a8c0, 0x641c_1f5c);
  }

  lemma Digit5(xs: seq<bv8>)
    requires Update(0xFFFF_FFFF, xs) == 0x641c_1f5c
    ensures Update(0xFFFF_FFFF, xs + [0x35]) == 0x340a_c5e3
  {
    Entry(0x69, 0x0000_0069, 0xedb8_8314, 0x76dc_418a, 0x3b6e_20c5, 0xf00f_9342, 0x7807_c9a1, 0xd1bb_67f0, 0x68dd_b3f8, 0x346e_d9fc);
    Fed(xs, 0x641c_1f5c, 0x35, 0x69, 0x346e_d9fc, 0x340a_c5e3);
  }

  lemma Digit6(xs: seq<bv8>)
    requires Update(0xFFFF_FFFF, xs) == 0x340a_c5e3
    ensures Update(0xFFFF_FFFF, xs + [0x36]) == 0xf68d_2c9e
  {
    Entry(0xd5, 0x0000_00d5, 0xedb8_834a, 0x76dc_41a5, 0xd6d6_a3f2, 0x6b6b_51f9, 0xd80d_2bdc, 0x6c06_95ee, 0x3603_4af7, 0xf6b9_265b);
    Fed(xs, 0x340a_c5e3, 0x36, 0xd5, 0xf6b9_265b, 0xf68d_2c9e);
  }

  lemma Digit7(xs: seq<bv8>)
    requires Update(0xFFFF_FFFF, xs) == 0xf68d_2c9e
    ensures Update(0xFFFF_FFFF, xs + [0x37]) == 0xaffc_9660
  {
    Entry(0xa9, 0x0000_00a9, 0xedb8_8374, 0x76dc_41ba, 0x3b6e_20dd, 0xf00f_934e, 0x7807_c9a7, 0xd1bb_67f3, 0x8565_30d9, 0xaf0a_1b4c);
    Fed(xs, 0xf68d_2c9e, 0x37, 0xa9, 0xaf0a_1b4c, 0xaffc_9660);
  }

  lemma Digit8(xs: seq<bv8>)
    requires Update(0xFFFF_FFFF, xs) == 0xaffc_9660
    ensures Update(0xFFFF_FFFF, xs + [0x38]) == 0x651f_2550
  {
    Entry(0x58, 0x0000_0058, 0x0000_002c, 0x0000_0016, 0x0000_000b, 0xedb8_8325, 0x9b64_c2b2, 0x4db2_6159, 0xcb61_b38c, 0x65b0_d9c6);
    Fed(xs, 0xaffc_9660, 0x38, 0x58, 0x65b0_d9c6, 0x651f_2550);
  }

  lemma Digit9(xs: seq<bv8>)
    requires Update(0xFFFF_FFFF, xs) == 0x651f_2550
    ensures Update(0xFFFF_FFFF, xs + [0x39]) == 0x340b_c6d9
  {
    Entry(0x69, 0x0000_0069, 0xedb8_8314, 0x76dc_418a, 0x3b6e_20c5, 0xf00f_9342, 0x7807_c9a1, 0xd1bb_67f0, 0x68dd_b3f8, 0x346e_d9fc);
    Fed(xs, 0x651f_2550, 0x39, 0x69, 0x346e_d9fc, 0x340b_c6d9);
  }

  lemma NothingFed(none: seq<bv8>)
    requires none == []
    ensures Update(0xFFFF_FFFF, none) == 0xFFFF_FFFF
  {
  }

  /** The check value of this CRC: that of the nine digits is 0xCBF43926. */
  lemma CheckValue(xs: seq<bv8>)
    requires xs == [0x31, 0x32, 0x33, 0x34, 0x35, 0x36, 0x37, 0x38, 0x39]
    ensures Crc32(xs) == 0xCBF4_3926
  {
    assert xs[..0] == [];
    NothingFed(xs[..0]);
    Digit1(xs[..0]);
    assert xs[..0] + [0x31] == xs[..1];
    Digit2(xs[..1]);
    assert xs[..1] + [0x32] == xs[..2];
    Digit3(xs[..2]);
    assert xs[..2] + [0x33] == xs[..3];
    Digit4(xs[..3]);
    assert xs[..3] + [0x34] == xs[..4];
    Digit5(xs[..4]);
    assert xs[..4] + [0x35] == xs[..5];
    Digit6(xs[..5]);
    assert xs[..5] + [0x36] == xs[..6];
    Digit7(xs[..6]);
    assert xs[..6] + [0x37] == xs[..7];
    Digit8(xs[..7]);
    assert xs[..7] + [0x38] == xs[..8];
    Digit9(xs[..8]);
    assert xs[..8] + [0x39] == xs[..9];
    assert xs[..9] == xs;
  }

  /** A register as the number stored in an image header. */
  function AsNumber(x: bv32): (n: nat)
    ensures n < 0x1_0000_0000
  {
    x as nat
  }

  function CrcNumber(xs: seq<bv8>): (n: nat)
    ensures n < 0x1_0000_0000
  {
    AsNumber(Crc32(xs))
  }

  function OfNumber(n: nat): bv32
    requires n < 0x1_0000_0000
  {
    n as bv32
  }

  lemma NumberIsRead(x: bv32)
    ensures OfNumber(AsNumber(x)) == x
  {
  }

  // ---- The turn is an invertible linear map ----

  function Half(x: bv32): bv32 { x >> 1 }

  function Tap(x: bv32): bv32 { if x & 1 == 1 then POLY else 0 }

  lemma TurnSplits(x: bv32)
    ensures Turn(x) == TableTurn(x) == Xor(Half(x), Tap(x))
  {
  }

  lemma TapLinear(x: bv32, y: bv32)
    ensures Tap(Xor(x, y)) == Xor(Tap(x), Tap(y))
  {
  }

  lemma HalfLinear(x: bv32, y: bv32)
    ensures Half(Xor(x, y)) == Xor(Half(x), Half(y))
  {
  }

  lemma XorAssociates(a: bv32, b: bv32, c: bv32)
    ensures Xor(Xor(a, b), c) == Xor(a, Xor(b, c))
  {
  }

  lemma XorCommutes(a: bv32, b: bv32)
    ensures Xor(a, b) == Xor(b, a)
  {
  }

  lemma XorPairs(a: bv32, b: bv32, c: bv32, d: bv32)
    ensures Xor(Xor(a, b), Xor(c, d)) == Xor(Xor(a, c), Xor(b, d))
  {
    calc {
      Xor(Xor(a, b), Xor(c, d));
      { XorAssociates(a, b, Xor(c, d)); }
      Xor(a, Xor(b, Xor(c, d)));
      { XorAssociates(b, c, d); XorCommutes(b, c); XorAssociates(c, b, d); }
      Xor(a, Xor(c, Xor(b, d)));
      { XorAssociates(a, c, Xor(b, d)); }
      Xor(Xor(a, c), Xor(b, d));
    }
  }

  lemma XorSelf(a: bv32, b: bv32)
    ensures Xor(a, b) == 0 <==> a == b
  {
    XorBack(a, b);
    XorWithZero(b);
  }

  lemma XorBack(a: bv32, b: bv32)
    ensures Xor(Xor(a, b), b) == a
  {
  }

  lemma XorWithZero(b: bv32)
    ensures Xor(0, b) == b && Xor(b, b) == 0
  {
  }

  lemma TurnLinear(x: bv32, y: bv32)
    ensures Turn(Xor(x, y)) == Xor(Turn(x), Turn(y))
  {
    TurnSplits(x);
    TurnSplits(y);
    TurnSplits(Xor(x, y));
    TapLinear(x, y);
    HalfLinear(x, y);
    XorPairs(Half(x), Half(y), Tap(x), Tap(y));
  }

  lemma {:induction false} TurnsLinear(x: bv32, y: bv32, n: nat)
    ensures Turns(Xor(x, y), n) == Xor(Turns(x, n), Turns(y, n))
    decreases n
  {
    if n > 0 {
      TurnsLinear(x, y, n - 1);
      TurnLinear(Turns(x, n - 1), Turns(y, n - 1));
    }
  }

  /** A turn puts the low bit on top, so a result whose top bit is clear was only shifted. */
  lemma TurnBack(x: bv32)
    requires Turn(x) < 0x8000_0000
    ensures x == Double(Turn(x))
  {
  }

  lemma {:induction false} TableTurnsSame(x: bv32, n: nat)
    ensures TableTurns(x, n) == Turns(x, n)
  {
    if n > 0 {
      TableTurnsSame(x, n - 1);
      TurnSplits(Turns(x, n - 1));
    }
  }

  function ByteStep(c: bv32, b: bv8): bv32
  {
    Turns(Xor(c, b as bv32), 8)
  }

  lemma {:induction false} TurnFirst(x: bv32, n: nat)
    ensures Turns(Turn(x), n) == Turns(x, n + 1)
  {
    if n > 0 {
      TurnFirst(x, n - 1);
    }
  }

  function Halved(x: bv32, n: nat): bv32
    decreases n
  {
    if n == 0 then x else Halved(Half(x), n - 1)
  }

  predicate LowClear(x: bv32, n: nat)
    decreases n
  {
    n > 0 ==> x & 1 == 0 && LowClear(Half(x), n - 1)
  }

  lemma TurnOut(x: bv32)
    requires x & 1 == 0
    ensures Turn(x) == Half(x)
  {
  }

  /** Clear low bits are only shifted out. */
  lemma {:induction false} ShiftedOut(x: bv32, n: nat)
    requires LowClear(x, n)
    ensures Turns(x, n) == Halved(x, n)
    decreases n
  {
    if n > 0 {
      TurnOut(x);
      ShiftedOut(Half(x), n - 1);
      TurnFirst(x, n - 1);
    }
  }

  lemma {:induction false} HalvedSum(x: bv32, m: nat, n: nat)
    ensures Halved(x, m + n) == Halved(Halved(x, m), n)
    ensures LowClear(x, m + n) <==> LowClear(x, m) && LowClear(Halved(x, m), n)
    decreases m
  {
    if m > 0 {
      HalvedSum(Half(x), m - 1, n);
    }
  }

  lemma TwoBitsOut(x: bv32)
    requires x & 3 == 0
    ensures LowClear(x, 2) && Halved(x, 2) == x >> 2
  {
  }

  lemma FourBitsOut(x: bv32)
    requires x & 0xF == 0
    ensures LowClear(x, 4) && Halved(x, 4) == x >> 4
  {
    HalvedSum(x, 2, 2);
    TwoBitsOut(x);
    TwoBitsOut(x >> 2);
  }

  lemma NibblesOut(x: bv32)
    ensures (x >> 4) >> 4 == x >> 8
    ensures x & 0xFF == 0 ==> x & 0xF == 0 && (x >> 4) & 0xF == 0
  {
  }

  lemma TwoNibblesOut(x: bv32, y: bv32)
    requires x & 0xF == 0 && y & 0xF == 0 && y == x >> 4
    ensures LowClear(x, 8) && Halved(x, 8) == y >> 4
  {
    HalvedSum(x, 4, 4);
    FourBitsOut(x);
    FourBitsOut(y);
  }

  lemma ByteOut(x: bv32)
    requires x & 0xFF == 0
    ensures Turns(x, 8) == x >> 8
  {
    NibblesOut(x);
    assert LowClear(x, 8) && Halved(x, 8) == (x >> 4) >> 4 by {
      TwoNibblesOut(x, x >> 4);
    }
    ShiftedOut(x, 8);
  }

  lemma Halves(c: bv32, b: bv8, y: bv32)
    requires y == Xor(c, b as bv32)
    ensures y == Xor(LowByte(y) as bv32, y & 0xFFFF_FF00)
    ensures (y & 0xFFFF_FF00) & 0xFF == 0 && (y & 0xFFFF_FF00) >> 8 == c >> 8
  {
  }

  lemma TableIsTurns(n: bv8, x: bv32)
    requires x == n as bv32
    ensures Table(n) == Turns(x, 8)
  {
    TableTurnsSame(x, 8);
  }

  lemma TurnsOfHalves(c: bv32, b: bv8, y: bv32, low: bv32, high: bv32)
    requires y == Xor(c, b as bv32) == Xor(low, high)
    requires Table(LowByte(y)) == Turns(low, 8) && c >> 8 == Turns(high, 8)
    ensures TableByte(c, b) == ByteStep(c, b)
  {
    TurnsLinear(low, high, 8);
  }

  /** The table form reads eight turns at once. */
  lemma TableByteIsTurns(c: bv32, b: bv8)
    ensures TableByte(c, b) == ByteStep(c, b)
  {
    var y := Xor(c, b as bv32);
    var low, high := LowByte(y) as bv32, y & 0xFFFF_FF00;
    assert y == Xor(low, high) && high & 0xFF == 0 && high >> 8 == c >> 8 by {
      Halves(c, b, y);
    }
    ByteOut(high);
    TableIsTurns(LowByte(y), low);
    TurnsOfHalves(c, b, y, low, high);
  }

  /** The loader's loop computes the CRC of the standard. */
  method ComputeCrc(data: seq<bv8>) returns (crc: bv32)
    ensures crc == Crc32(data)
  {
    crc := 0xFFFF_FFFF;
    for i := 0 to |data|
      invariant crc == Update(0xFFFF_FFFF, data[..i])
    {
      ghost var before := crc;
      crc := crc ^ data[i] as bv32;
      for bit := 0 to 8
        invariant crc == Turns(Xor(before, data[i] as bv32), bit)
      {
        var mask: bv32 := 0 - (crc & 1);
        crc := (crc >> 1) ^ (POLY & mask);
      }
      TableByteIsTurns(before, data[i]);
      assert data[..i + 1][..i] == data[..i];
    }
    assert data[..|data|] == data;
    crc := !crc;
  }

  // ---- What the CRC detects ----

  function Differences(xs: seq<bv8>, ys: seq<bv8>): (ds: seq<bv8>)
    requires |xs| == |ys|
    ensures |ds| == |xs|
  {
    seq(|xs|, i requires 0 <= i < |xs| => xs[i] ^ ys[i])
  }

  /** The exclusive or of two registers fed byte strings that differ by ds. */
  function Drift(ds: seq<bv8>): bv32
  {
    if ds == [] then 0 else ByteStep(Drift(ds[..|ds| - 1]), ds[|ds| - 1])
  }

  lemma ByteXor(a: bv8, b: bv8)
    ensures (a ^ b) as bv32 == Xor(a as bv32, b as bv32)
    ensures a ^ b == 0 <==> a == b
  {
  }

  lemma {:induction false} DriftIsXor(c: bv32, xs: seq<bv8>, ys: seq<bv8>)
    requires |xs| == |ys|
    ensures Xor(Update(c, xs), Update(c, ys)) == Drift(Differences(xs, ys))
  {
    if xs == [] {
      XorSelf(c, c);
    } else {
      var n := |xs| - 1;
      var x, y, a, b := Update(c, xs[..n]), Update(c, ys[..n]), xs[n] as bv32, ys[n] as bv32;
      DriftIsXor(c, xs[..n], ys[..n]);
      assert Differences(xs, ys)[..n] == Differences(xs[..n], ys[..n]);
      TableByteIsTurns(x, xs[n]);
      TableByteIsTurns(y, ys[n]);
      TurnsLinear(Xor(x, a), Xor(y, b), 8);
      XorPairs(x, a, y, b);
      ByteXor(xs[n], ys[n]);
    }
  }

  function Double(x: bv32): bv32 { x << 1 }

  function Doubled(x: bv32, n: nat): bv32
    decreases n
  {
    if n == 0 then x else Doubled(Double(x), n - 1)
  }

  predicate TopClear(x: bv32, n: nat)
    decreases n
  {
    n > 0 ==> x < 0x8000_0000 && TopClear(Double(x), n - 1)
  }

  lemma {:induction false} TurnsBackTo(x: bv32, n: nat)
    requires TopClear(Turns(x, n), n)
    ensures x == Doubled(Turns(x, n), n)
  {
    if n > 0 {
      TurnBack(Turns(x, n - 1));
      TurnsBackTo(x, n - 1);
    }
  }

  lemma {:induction false} DoubledSum(x: bv32, m: nat, n: nat)
    ensures Doubled(x, m + n) == Doubled(Doubled(x, m), n)
    ensures TopClear(x, m + n) <==> TopClear(x, m) && TopClear(Doubled(x, m), n)
    decreases m
  {
    if m > 0 {
      DoubledSum(Double(x), m - 1, n);
    }
  }

  lemma TwoBitsUp(x: bv32)
    requires x < 0x4000_0000
    ensures TopClear(x, 2) && Doubled(x, 2) == x << 2
  {
  }

  lemma FourBitsUp(x: bv32)
    requires x < 0x1000_0000
    ensures TopClear(x, 4) && Doubled(x, 4) == x << 4
  {
    DoubledSum(x, 2, 2);
    TwoBitsUp(x);
    TwoBitsUp(x << 2);
  }

  lemma ByteUp(x: bv32, y: bv32)
    requires x < 0x100_0000 && y == x << 4
    ensures Doubled(x, 8) == y << 4
    ensures y < 0x1000_0000 && TopClear(x, 8)
  {
    DoubledSum(x, 4, 4);
    FourBitsUp(x);
    FourBitsUp(y);
  }

  lemma NibblesUp(x: bv32)
    ensures (x << 4) << 4 == x << 8
  {
  }

  lemma WholeByteUp(x: bv32)
    requires x < 0x100_0000
    ensures TopClear(x, 8) && Doubled(x, 8) == x << 8
  {
    assert Doubled(x, 8) == (x << 4) << 4 && TopClear(x, 8) by {
      ByteUp(x, x << 4);
    }
    NibblesUp(x);
  }

  /** Eight turns that end below 2^24 only shifted. */
  lemma TurnsBack(x: bv32)
    requires Turns(x, 8) < 0x100_0000
    ensures x == Turns(x, 8) << 8
  {
    WholeByteUp(Turns(x, 8));
    TurnsBackTo(x, 8);
  }

  /** The bound a register with k bytes of window left may have. */
  predicate Small(d: bv32, k: nat)
    requires k <= 4
  {
    if k == 4 then d == 0 else if k == 3 then d < 0x100 else if k == 2 then d < 0x1_0000
    else if k == 1 then d < 0x100_0000 else true
  }

  lemma StepBack(e: bv32, d: bv8, k: nat)
    requires 0 < k <= 4 && Small(ByteStep(e, d), k)
    ensures Small(e, k - 1)
    ensures e == 0 ==> d == 0 && ByteStep(e, d) == 0
  {
    TurnsBack(Xor(e, d as bv32));
  }

  predicate AllZero(ds: seq<bv8>)
  {
    forall i :: 0 <= i < |ds| ==> ds[i] == 0
  }

  lemma {:induction false} NoDrift(ds: seq<bv8>)
    requires AllZero(ds)
    ensures Drift(ds) == 0
  {
    if ds != [] {
      NoDrift(ds[..|ds| - 1]);
      XorSelf(0, 0);
      ByteOut(0);
    }
  }

  /** Differences in the last k bytes only, cancelling to a small register, are no differences. */
  lemma {:induction false} WindowCancels(ds: seq<bv8>, k: nat)
    requires k <= 4 && forall i :: 0 <= i < |ds| - k ==> ds[i] == 0
    requires Small(Drift(ds), k)
    ensures AllZero(ds)
    decreases k
  {
    if k > 0 && ds != [] {
      var n := |ds| - 1;
      var e := Drift(ds[..n]);
      assert Small(e, k - 1) && (e == 0 ==> ds[n] == 0) by {
        StepBack(e, ds[n], k);
      }
      WindowCancels(ds[..n], k - 1);
      NoDrift(ds[..n]);
    }
  }

  lemma {:induction false} BurstCancels(ds: seq<bv8>, p: nat)
    requires forall i :: 0 <= i < |ds| && !(p <= i < p + 4) ==> ds[i] == 0
    requires Drift(ds) == 0
    ensures AllZero(ds)
  {
    if |ds| <= p + 4 {
      WindowCancels(ds, 4);
    } else {
      var n := |ds| - 1;
      StepBack(Drift(ds[..n]), ds[n], 4);
      TurnsBack(Xor(Drift(ds[..n]), 0));
      XorSelf(Drift(ds[..n]), 0);
      BurstCancels(ds[..n], p);
    }
  }

  predicate DifferOnlyWithin(xs: seq<bv8>, ys: seq<bv8>, p: nat, width: nat)
    requires |xs| == |ys|
  {
    forall i :: 0 <= i < |xs| && xs[i] != ys[i] ==> p <= i < p + width
  }

  /** Two messages of one length that differ, but only within four consecutive bytes, have different CRCs. */
  lemma BurstDetected(xs: seq<bv8>, ys: seq<bv8>, p: nat)
    requires |xs| == |ys| && xs != ys && DifferOnlyWithin(xs, ys, p, 4)
    ensures Crc32(xs) != Crc32(ys)
  {
    if Crc32(xs) == Crc32(ys) {
      var ds := Differences(xs, ys);
      DriftIsXor(0xFFFF_FFFF, xs, ys);
      XorSelf(Update(0xFFFF_FFFF, xs), Update(0xFFFF_FFFF, ys));
      forall i | 0 <= i < |ds| ensures ds[i] == 0 <==> xs[i] == ys[i] {
        ByteXor(xs[i], ys[i]);
      }
      BurstCancels(ds, p);
    }
  }
}
