/** Little-endian fields in byte strings. */
module Bytes {
  import opened Arith

  // A byte is read and made bit by bit, lowest first, so that no proof about fields has to do with both integers and
  // bit-vectors.

  /** The number the k lowest bits stand for. */
  function OfBits(b: bv8, k: nat): nat
    decreases k, b
  {
    if k == 0 then 0 else LowBit(b) + 2 * OfBits(b >> 1, k - 1)
  }

  /** The k lowest bits of a number. */
  function ToBits(n: nat, k: nat): bv8
    decreases k, n
  {
    if k == 0 then 0 else BitOf(n) | (ToBits(n / 2, k - 1) << 1)
  }

  function LowBit(b: bv8): (x: nat)
    ensures x < 2
  {
    if b & 1 == 1 then 1 else 0
  }

  function BitOf(n: nat): bv8 { if n % 2 == 1 then 1 else 0 }

  function OfByte(b: bv8): (n: nat)
    ensures n < 256
  {
    ByteBound(b);
    OfBits(b, 8)
  }

  function ToByte(n: nat): bv8
    requires n < 256
  {
    ToBits(n, 8)
  }

  lemma {:induction false} BitsBound(b: bv8, k: nat)
    ensures OfBits(b, k) < Pow2(k)
    decreases k
  {
    if k > 0 {
      BitsBound(b >> 1, k - 1);
    }
  }

  lemma ByteBound(b: bv8)
    ensures OfBits(b, 8) < 256
  {
    BitsBound(b, 8);
    BytePow();
  }

  lemma BytePow()
    ensures Pow2(8) == 256
  {
    assert Pow2(4) == 16;
    Pow2Sum(4, 4);
  }

  /** A mask that leaves the k lowest bits alone. */
  predicate Lets(m: bv8, k: nat)
    decreases k, m
  {
    k == 0 || (m & 1 == 1 && Lets(m >> 1, k - 1))
  }

  lemma {:induction false} MaskIgnored(b: bv8, m: bv8, k: nat)
    requires Lets(m, k)
    ensures OfBits(b & m, k) == OfBits(b, k)
    decreases k
  {
    if k > 0 {
      MaskShifts(b, m);
      MaskIgnored(b >> 1, m >> 1, k - 1);
    }
  }

  lemma MaskShifts(b: bv8, m: bv8)
    ensures (b & m) >> 1 == (b >> 1) & (m >> 1)
    ensures m & 1 == 1 ==> (b & m) & 1 == b & 1
  {
  }

  lemma {:induction false} LetsFewer(m: bv8, j: nat, k: nat)
    requires Lets(m, k) && j <= k
    ensures Lets(m, j)
    decreases k
  {
    if j > 0 {
      LetsFewer(m >> 1, j - 1, k - 1);
    }
  }

  lemma LetsSeven()
    ensures Lets(0x7F, 7)
  {
    var a, b, c, d, e, f, g: bv8 := 0x01, 0x03, 0x07, 0x0F, 0x1F, 0x3F, 0x7F;
    assert Lets(a, 1);
    assert b >> 1 == a && Lets(b, 2);
    assert c >> 1 == b && Lets(c, 3);
    assert d >> 1 == c && Lets(d, 4);
    assert e >> 1 == d && Lets(e, 5);
    assert f >> 1 == e && Lets(f, 6);
    assert g >> 1 == f;
  }

  lemma PutLow(x: bv8, y: bv8)
    requires x == 0 || x == 1
    ensures (x | (y << 1)) & 1 == x && (x | (y << 1)) >> 1 == y & 0x7F
  {
  }

  lemma {:induction false} BitsKept(n: nat, k: nat)
    requires n < Pow2(k) && k <= 8
    ensures OfBits(ToBits(n, k), k) == n
    decreases k
  {
    if k > 0 {
      BitsKept(n / 2, k - 1);
      PutLow(BitOf(n), ToBits(n / 2, k - 1));
      LetsSeven();
      LetsFewer(0x7F, k - 1, 7);
      MaskIgnored(ToBits(n / 2, k - 1), 0x7F, k - 1);
    }
  }

  /** No bit is set above the k lowest. */
  predicate Narrow(b: bv8, k: nat)
    decreases k, b
  {
    if k == 0 then b == 0 else Narrow(b >> 1, k - 1)
  }

  lemma TakeLow(b: bv8)
    ensures (b & 1) | ((b >> 1) << 1) == b
    ensures b & 1 == 0 || b & 1 == 1
  {
  }

  lemma {:induction false} BitsRead(b: bv8, k: nat)
    requires Narrow(b, k)
    ensures ToBits(OfBits(b, k), k) == b
    decreases k
  {
    if k > 0 {
      BitsRead(b >> 1, k - 1);
      TakeLow(b);
      HalfOf(LowBit(b), OfBits(b >> 1, k - 1));
    }
  }

  lemma HalfOf(x: nat, m: nat)
    requires x < 2
    ensures (x + 2 * m) % 2 == x && (x + 2 * m) / 2 == m
  {
  }

  lemma AllNarrow(b: bv8)
    ensures Narrow(b, 8)
  {
    var c := ((b >> 1) >> 1) >> 1;
    var d := ((c >> 1) >> 1) >> 1;
    assert (d >> 1) >> 1 == 0;
    assert Narrow(d, 2);
    assert Narrow(c, 5);
  }

  lemma ByteIsKept(n: nat)
    requires n < 256
    ensures OfByte(ToByte(n)) == n
  {
    BytePow();
    BitsKept(n, 8);
  }

  lemma ByteIsRead(b: bv8)
    ensures ToByte(OfByte(b)) == b
  {
    AllNarrow(b);
    BitsRead(b, 8);
  }

  predicate AllOnes(b: bv8, k: nat)
    decreases k, b
  {
    k == 0 || (b & 1 == 1 && AllOnes(b >> 1, k - 1))
  }

  lemma AddLow(b: bv8)
    ensures b & 1 == 0 ==> (b + 1) & 1 == 1 && (b + 1) >> 1 == b >> 1
    ensures b & 1 == 1 && b != 0xFF ==> (b + 1) & 1 == 0 && (b + 1) >> 1 == (b >> 1) + 1
    ensures b & 1 == 0 || b & 1 == 1
    ensures b >> 1 != 0xFF
  {
  }

  lemma {:induction false} BitsCount(b: bv8, k: nat)
    requires b != 0xFF && !AllOnes(b, k)
    ensures OfBits(b + 1, k) == OfBits(b, k) + 1
    decreases k
  {
    AddLow(b);
    if b & 1 == 1 {
      BitsCount(b >> 1, k - 1);
    }
  }

  lemma OnesAre(b: bv8)
    requires AllOnes(b, 8)
    ensures b == 0xFF
  {
    var b1 := b >> 1;
    var b2 := b1 >> 1;
    var b3 := b2 >> 1;
    var b4 := b3 >> 1;
    assert AllOnes(b1, 7) && AllOnes(b2, 6);
    assert AllOnes(b3, 5) && AllOnes(b4, 4);
    assert AllOnes(b4 >> 1, 3);
    assert AllOnes((b4 >> 1) >> 1, 2);
    EightOnes(b, b1, b2, b3, b4);
  }

  lemma EightOnes(b: bv8, b1: bv8, b2: bv8, b3: bv8, b4: bv8)
    requires b1 == b >> 1 && b2 == b1 >> 1 && b3 == b2 >> 1 && b4 == b3 >> 1
    requires b & 1 == 1 && b1 & 1 == 1 && b2 & 1 == 1 && b3 & 1 == 1 && b4 & 1 == 1
    requires (b4 >> 1) & 1 == 1 && (b4 >> 1 >> 1) & 1 == 1 && (b4 >> 1 >> 1 >> 1) & 1 == 1
    ensures b == 0xFF
  {
  }

  /** Bytes count: 0 is 0, and the next byte is one more. */
  lemma BytesCount(b: bv8)
    requires b != 0xFF
    ensures OfByte(b + 1) == OfByte(b) + 1 && OfByte(0) == 0
  {
    if AllOnes(b, 8) {
      OnesAre(b);
    }
    BitsCount(b, 8);
  }

  /** The k bytes from `at` on as a number, lowest first. */
  function Field(bytes: seq<bv8>, at: nat, k: nat): nat
    requires at + k <= |bytes|
    decreases k, bytes
  {
    if k == 0 then 0 else OfByte(bytes[at]) + 256 * Field(bytes, at + 1, k - 1)
  }

  function U16(bytes: seq<bv8>, at: nat): (n: nat)
    requires at + 2 <= |bytes|
    ensures n < 0x1_0000
  {
    FieldBound(bytes, at, 2, 0x1_0000);
    Field(bytes, at, 2)
  }

  function U32At(bytes: seq<bv8>, at: nat): (n: nat)
    requires at + 4 <= |bytes|
    ensures n < U32
  {
    FieldBound(bytes, at, 4, U32);
    Field(bytes, at, 4)
  }

  function Pow256(k: nat): nat { if k == 0 then 1 else 256 * Pow256(k - 1) }

  lemma {:induction false} FieldBelow(bytes: seq<bv8>, at: nat, k: nat)
    requires at + k <= |bytes|
    ensures Field(bytes, at, k) < Pow256(k)
    decreases k
  {
    if k > 0 {
      FieldBelow(bytes, at + 1, k - 1);
    }
  }

  lemma FieldBound(bytes: seq<bv8>, at: nat, k: nat, bound: nat)
    requires at + k <= |bytes| && ((k == 2 && bound == 0x1_0000) || (k == 4 && bound == U32))
    ensures Field(bytes, at, k) < bound
  {
    FieldBelow(bytes, at, k);
    assert Pow256(2) == 0x1_0000 && Pow256(4) == U32;
  }

  lemma {:induction false} SameField(x: seq<bv8>, y: seq<bv8>, at: nat, k: nat)
    requires at + k <= |x| && at + k <= |y| && x[at..at + k] == y[at..at + k]
    ensures Field(x, at, k) == Field(y, at, k)
    decreases k
  {
    if k > 0 {
      assert x[at] == x[at..at + k][0] && y[at] == y[at..at + k][0];
      assert x[at + 1..at + k] == x[at..at + k][1..] && y[at + 1..at + k] == y[at..at + k][1..];
      SameField(x, y, at + 1, k - 1);
    }
  }

  /** A 32-bit field is little-endian. */
  lemma LowByteFirst(bytes: seq<bv8>, at: nat)
    requires at + 4 <= |bytes|
    ensures U32At(bytes, at) == OfByte(bytes[at]) + 0x100 * OfByte(bytes[at + 1])
                              + 0x1_0000 * OfByte(bytes[at + 2]) + 0x100_0000 * OfByte(bytes[at + 3])
    ensures U16(bytes, at) == OfByte(bytes[at]) + 0x100 * OfByte(bytes[at + 1])
  {
    FieldOf2(bytes, at);
    FieldOf2(bytes, at + 2);
    FieldOf4(bytes, at);
  }

  function Bytes2(n: nat): (s: seq<bv8>)
    requires n < 0x1_0000
    ensures |s| == 2
  {
    [ToByte(n % 256), ToByte(n / 256)]
  }

  function Bytes4(n: nat): (s: seq<bv8>)
    requires n < U32
    ensures |s| == 4
  {
    Bytes2(n % 0x1_0000) + Bytes2(n / 0x1_0000)
  }

  lemma ReadBytes2(bytes: seq<bv8>, at: nat, n: nat)
    requires n < 0x1_0000 && at + 2 <= |bytes| && bytes[at..at + 2] == Bytes2(n)
    ensures U16(bytes, at) == n
  {
    assert bytes[at] == bytes[at..at + 2][0] && bytes[at + 1] == bytes[at..at + 2][1];
    ByteIsKept(n % 256);
    ByteIsKept(n / 256);
    FieldOf2(bytes, at);
  }

  lemma FieldOf2(bytes: seq<bv8>, at: nat)
    requires at + 2 <= |bytes|
    ensures Field(bytes, at, 2) == OfByte(bytes[at]) + 256 * OfByte(bytes[at + 1])
  {
    assert Field(bytes, at + 1, 1) == OfByte(bytes[at + 1]) + 256 * Field(bytes, at + 2, 0);
  }

  lemma FieldOf4(bytes: seq<bv8>, at: nat)
    requires at + 4 <= |bytes|
    ensures Field(bytes, at, 4) == Field(bytes, at, 2) + 0x1_0000 * Field(bytes, at + 2, 2)
  {
    FieldOf2(bytes, at);
    assert Field(bytes, at, 4) == OfByte(bytes[at]) + 256 * Field(bytes, at + 1, 3);
    assert Field(bytes, at + 1, 3) == OfByte(bytes[at + 1]) + 256 * Field(bytes, at + 2, 2);
  }

  lemma ReadBytes4(bytes: seq<bv8>, at: nat, n: nat)
    requires n < U32 && at + 4 <= |bytes| && bytes[at..at + 4] == Bytes4(n)
    ensures U32At(bytes, at) == n
  {
    assert bytes[at..at + 2] == bytes[at..at + 4][..2] == Bytes2(n % 0x1_0000);
    assert bytes[at + 2..at + 4] == bytes[at..at + 4][2..] == Bytes2(n / 0x1_0000);
    ReadBytes2(bytes, at, n % 0x1_0000);
    ReadBytes2(bytes, at + 2, n / 0x1_0000);
    FieldOf4(bytes, at);
  }
}
