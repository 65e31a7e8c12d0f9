/** The functions of section 4.1.2 of FIPS 180-4, bit by bit. */
module Sha256Bits {
  import opened Sha256Spec

  /** The word after i rotations by one to the right. */
  function Turned(x: bv32, i: nat): bv32
    decreases i, x
  {
    if i == 0 then x else Turned(x.RotateRight(1), i - 1)
  }

  predicate Low(x: bv32) { x & 1 == 1 }

  /** Bit i of a word, counted round the end from the lowest. */
  predicate Bit(x: bv32, i: nat) { Low(Turned(x, i)) }

  lemma {:induction false} TurnedTwice(x: bv32, i: nat, j: nat)
    ensures Turned(Turned(x, i), j) == Turned(x, i + j)
    decreases i
  {
    if i > 0 {
      TurnedTwice(x.RotateRight(1), i - 1, j);
    }
  }

  // ---- Ch and Maj ----

  lemma ChTurns(x: bv32, y: bv32, z: bv32)
    ensures Ch(x, y, z).RotateRight(1) == Ch(x.RotateRight(1), y.RotateRight(1), z.RotateRight(1))
  {
  }

  lemma {:induction false} ChTurned(x: bv32, y: bv32, z: bv32, i: nat)
    ensures Turned(Ch(x, y, z), i) == Ch(Turned(x, i), Turned(y, i), Turned(z, i))
    decreases i
  {
    if i > 0 {
      ChTurns(x, y, z);
      ChTurned(x.RotateRight(1), y.RotateRight(1), z.RotateRight(1), i - 1);
    }
  }

  lemma ChLow(x: bv32, y: bv32, z: bv32)
    ensures Low(Ch(x, y, z)) == if Low(x) then Low(y) else Low(z)
  {
  }

  /** Where x has a one Ch takes the bit of y, and where it has a zero that of z. */
  lemma ChChooses(x: bv32, y: bv32, z: bv32, i: nat)
    ensures Bit(Ch(x, y, z), i) == if Bit(x, i) then Bit(y, i) else Bit(z, i)
  {
    ChTurned(x, y, z, i);
    ChLow(Turned(x, i), Turned(y, i), Turned(z, i));
  }

  lemma MajTurns(x: bv32, y: bv32, z: bv32)
    ensures Maj(x, y, z).RotateRight(1) == Maj(x.RotateRight(1), y.RotateRight(1), z.RotateRight(1))
  {
  }

  lemma {:induction false} MajTurned(x: bv32, y: bv32, z: bv32, i: nat)
    ensures Turned(Maj(x, y, z), i) == Maj(Turned(x, i), Turned(y, i), Turned(z, i))
    decreases i
  {
    if i > 0 {
      MajTurns(x, y, z);
      MajTurned(x.RotateRight(1), y.RotateRight(1), z.RotateRight(1), i - 1);
    }
  }

  lemma MajLow(x: bv32, y: bv32, z: bv32)
    ensures Low(Maj(x, y, z)) <==> (Low(x) && Low(y)) || (Low(x) && Low(z)) || (Low(y) && Low(z))
  {
  }

  /** Maj has a one exactly where at least two of its arguments have one. */
  lemma MajCounts(x: bv32, y: bv32, z: bv32, i: nat)
    ensures Bit(Maj(x, y, z), i) <==> (Bit(x, i) && Bit(y, i)) || (Bit(x, i) && Bit(z, i)) || (Bit(y, i) && Bit(z, i))
  {
    MajTurned(x, y, z, i);
    MajLow(Turned(x, i), Turned(y, i), Turned(z, i));
  }

  // ---- The sigmas ----

  lemma NotTurns(x: bv32)
    ensures (!x).RotateRight(1) == !x.RotateRight(1)
  {
  }

  lemma {:induction false} NotBit(x: bv32, i: nat)
    ensures Bit(!x, i) <==> !Bit(x, i)
    decreases i
  {
    if i == 0 {
      NotLow(x);
    } else {
      NotTurns(x);
      NotBit(x.RotateRight(1), i - 1);
    }
  }

  lemma NotLow(x: bv32)
    ensures Low(!x) <==> !Low(x)
  {
  }

  lemma XorIsChoice(x: bv32, y: bv32, z: bv32, d: bv32)
    requires d == (y & !z) ^ (!y & z)
    ensures x ^ y ^ z == (x & !d) ^ (!x & d)
  {
  }

  lemma ChoiceIsCh(x: bv32, d: bv32, s: bv32)
    requires s == (x & !d) ^ (!x & d)
    ensures s == Ch(x, !d, d)
  {
  }

  lemma TwoChoices(x: bv32, y: bv32, z: bv32, s: bv32) returns (d: bv32)
    requires s == x ^ y ^ z
    ensures d == Ch(y, !z, z) && s == Ch(x, !d, d)
  {
    d := (y & !z) ^ (!y & z);
    XorIsChoice(x, y, z, d);
    ChoiceIsCh(y, z, d);
    ChoiceIsCh(x, d, s);
  }

  lemma ChoicesBit(x: bv32, y: bv32, z: bv32, d: bv32, s: bv32, i: nat)
    requires d == Ch(y, !z, z) && s == Ch(x, !d, d)
    ensures Bit(s, i) <==> Bit(x, i) != (Bit(y, i) != Bit(z, i))
  {
    ChChooses(x, !d, d, i);
    NotBit(d, i);
    ChChooses(y, !z, z, i);
    NotBit(z, i);
  }

  /** An exclusive or has a one exactly where an odd number of its three arguments have. */
  lemma XorBit(x: bv32, y: bv32, z: bv32, s: bv32, i: nat)
    requires s == x ^ y ^ z
    ensures Bit(s, i) <==> Bit(x, i) != (Bit(y, i) != Bit(z, i))
  {
    var d := TwoChoices(x, y, z, s);
    ChoicesBit(x, y, z, d, s, i);
  }

  // A rotation by n is n rotations by one.

  lemma Turn2(x: bv32)
    ensures Turned(x, 2) == x.RotateRight(2)
  {
    TurnedTwice(x, 1, 1);
    assert x.RotateRight(1).RotateRight(1) == x.RotateRight(2);
  }

  lemma Turn4(x: bv32)
    ensures Turned(x, 4) == x.RotateRight(4)
  {
    Turn2(x);
    Turn2(x.RotateRight(2));
    TurnedTwice(x, 2, 2);
    assert x.RotateRight(2).RotateRight(2) == x.RotateRight(4);
  }

  lemma Turn6(x: bv32)
    ensures Turned(x, 6) == x.RotateRight(6)
  {
    Turn4(x);
    Turn2(x.RotateRight(4));
    TurnedTwice(x, 4, 2);
    assert x.RotateRight(4).RotateRight(2) == x.RotateRight(6);
  }

  lemma Turn7(x: bv32)
    ensures Turned(x, 7) == x.RotateRight(7)
  {
    Turn6(x);
    TurnedTwice(x, 6, 1);
    assert x.RotateRight(6).RotateRight(1) == x.RotateRight(7);
  }

  lemma Turn11(x: bv32)
    ensures Turned(x, 11) == x.RotateRight(11)
  {
    Turn7(x);
    Turn4(x.RotateRight(7));
    TurnedTwice(x, 7, 4);
    assert x.RotateRight(7).RotateRight(4) == x.RotateRight(11);
  }

  lemma Turn13(x: bv32)
    ensures Turned(x, 13) == x.RotateRight(13)
  {
    Turn11(x);
    Turn2(x.RotateRight(11));
    TurnedTwice(x, 11, 2);
    assert x.RotateRight(11).RotateRight(2) == x.RotateRight(13);
  }

  lemma Turn17(x: bv32)
    ensures Turned(x, 17) == x.RotateRight(17)
  {
    Turn13(x);
    Turn4(x.RotateRight(13));
    TurnedTwice(x, 13, 4);
    assert x.RotateRight(13).RotateRight(4) == x.RotateRight(17);
  }

  lemma Turn18(x: bv32)
    ensures Turned(x, 18) == x.RotateRight(18)
  {
    Turn11(x);
    Turn7(x.RotateRight(11));
    TurnedTwice(x, 11, 7);
    assert x.RotateRight(11).RotateRight(7) == x.RotateRight(18);
  }

  lemma Turn19(x: bv32)
    ensures Turned(x, 19) == x.RotateRight(19)
  {
    Turn17(x);
    Turn2(x.RotateRight(17));
    TurnedTwice(x, 17, 2);
    assert x.RotateRight(17).RotateRight(2) == x.RotateRight(19);
  }

  lemma Turn22(x: bv32)
    ensures Turned(x, 22) == x.RotateRight(22)
  {
    Turn11(x);
    Turn11(x.RotateRight(11));
    TurnedTwice(x, 11, 11);
    assert x.RotateRight(11).RotateRight(11) == x.RotateRight(22);
  }

  lemma Turn25(x: bv32)
    ensures Turned(x, 25) == x.RotateRight(25)
  {
    Turn18(x);
    Turn7(x.RotateRight(18));
    TurnedTwice(x, 18, 7);
    assert x.RotateRight(18).RotateRight(7) == x.RotateRight(25);
  }

  function Xor3(x: bv32, y: bv32, z: bv32): bv32 { x ^ y ^ z }

  lemma BigSigma0Is(x: bv32)
    ensures BigSigma0(x) == Xor3(Turned(x, 2), Turned(x, 13), Turned(x, 22))
  {
    Turn2(x);
    Turn13(x);
    Turn22(x);
  }

  lemma BigSigma1Is(x: bv32)
    ensures BigSigma1(x) == Xor3(Turned(x, 6), Turned(x, 11), Turned(x, 25))
  {
    Turn6(x);
    Turn11(x);
    Turn25(x);
  }

  lemma Sigma0Is(x: bv32)
    ensures Sigma0(x) == Xor3(Turned(x, 7), Turned(x, 18), x >> 3)
  {
    Turn7(x);
    Turn18(x);
  }

  lemma Sigma1Is(x: bv32)
    ensures Sigma1(x) == Xor3(Turned(x, 17), Turned(x, 19), x >> 10)
  {
    Turn17(x);
    Turn19(x);
  }

  /** A bit of a mix of two rotations and another word. */
  lemma MixedBit(x: bv32, s: bv32, j: nat, k: nat, z: bv32, i: nat)
    requires s == Xor3(Turned(x, j), Turned(x, k), z)
    ensures Bit(s, i) <==> Bit(x, i + j) != (Bit(x, i + k) != Bit(z, i))
  {
    XorBit(Turned(x, j), Turned(x, k), z, s, i);
    TurnedTwice(x, j, i);
    TurnedTwice(x, k, i);
  }

  /** A bit of BigSigma0 is the exclusive or of the bits 2, 13 and 22 places on. */
  lemma BigSigma0Mixes(x: bv32, i: nat)
    ensures Bit(BigSigma0(x), i) <==> Bit(x, i + 2) != (Bit(x, i + 13) != Bit(x, i + 22))
  {
    BigSigma0Is(x);
    MixedBit(x, BigSigma0(x), 2, 13, Turned(x, 22), i);
    TurnedTwice(x, 22, i);
  }

  /** And of BigSigma1 of those 6, 11 and 25 places on. */
  lemma BigSigma1Mixes(x: bv32, i: nat)
    ensures Bit(BigSigma1(x), i) <==> Bit(x, i + 6) != (Bit(x, i + 11) != Bit(x, i + 25))
  {
    BigSigma1Is(x);
    MixedBit(x, BigSigma1(x), 6, 11, Turned(x, 25), i);
    TurnedTwice(x, 25, i);
  }

  /** A bit of Sigma0 is the exclusive or of the bits 7 and 18 places on and of that of the word shifted by 3. */
  lemma Sigma0Mixes(x: bv32, i: nat)
    ensures Bit(Sigma0(x), i) <==> Bit(x, i + 7) != (Bit(x, i + 18) != Bit(x >> 3, i))
  {
    Sigma0Is(x);
    MixedBit(x, Sigma0(x), 7, 18, x >> 3, i);
  }

  /** And of Sigma1 of those 17 and 19 places on and of that of the word shifted by 10. */
  lemma Sigma1Mixes(x: bv32, i: nat)
    ensures Bit(Sigma1(x), i) <==> Bit(x, i + 17) != (Bit(x, i + 19) != Bit(x >> 10, i))
  {
    Sigma1Is(x);
    MixedBit(x, Sigma1(x), 17, 19, x >> 10, i);
  }

  // ---- Addition ----

  /** Plus is addition: 0 is neutral, and one more gives one more, round the end. */
  lemma PlusCounts(x: bv32, y: bv32)
    ensures Plus(x, 0) == x && Plus(x, y + 1) == Plus(x, y) + 1
  {
  }
}
